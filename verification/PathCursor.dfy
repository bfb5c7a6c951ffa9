/** __path_normalize with its cursors, proved to do what the recursive description says. */
module PathCursor {

  import opened Options
  import opened PathNames
  import opened PathNormalize

  /** The output to start from; "/" and no directory both mean the root. */
  function Base(at: Option<string>): string { if at.None? || at.value == "/" then "" else at.value }

  function Normalized(at: Option<string>, path: string, env: Env, follow: bool, levels: nat): Outcome
    requires levels <= MAX_LINKS
  {
    if path == "" then Fail(ENOENT) else Walk(Base(at), SkipSlashes(path), env, follow, levels)
  }

  /** Eat slashes. */
  method EatSlashes(path: string, start: nat) returns (i: nat)
    requires start <= |path|
    ensures start <= i <= |path| && path[i..] == SkipSlashes(path[start..])
    ensures i == |path| || path[i] != '/'
    ensures i == start || path[i - 1] == '/'
  {
    i := start;
    while i < |path| && path[i] == '/'
      invariant start <= i <= |path| && SkipSlashes(path[i..]) == SkipSlashes(path[start..])
      invariant i == start || path[i - 1] == '/'
    {
      assert path[i..][1..] == path[i + 1..];
      i := i + 1;
    }
  }

  /** Delete the last component. */
  method DeleteLast(out: string) returns (o: string)
    requires out != "" ==> out[0] == '/'
    ensures o == Pop(out)
  {
    o := out;
    if o != "" {
      var n := |out| - 1;
      assert out[..n + 1] == out;
      while out[n] != '/'
        invariant 0 <= n < |out| && Pop(out[..n + 1]) == Pop(out)
        decreases n
      {
        assert out[..n + 1][..n] == out[..n];
        n := n - 1;
      }
      o := out[..n];
      assert out[..n + 1][..n] == out[..n];
    }
  }

  /** Copy a component, within a budget of n bytes for the slash and the component. */
  method CopyComponent(path: string, start: nat, out: string, budget: nat) returns (i: nat, o: string, n: nat)
    requires start < |path| && path[start] != '/' && budget > 1
    ensures start <= i <= |path|
    ensures n == 0 <==> |Head(path[start..])| >= budget - 1
    ensures n > 0 ==> o == out + "/" + Head(path[start..]) && n == budget - 1 - |Head(path[start..])| && i == start + |Head(path[start..])|
  {
    var h := Head(path[start..]);
    HeadAt(path, start);
    o, n, i := out + "/", budget - 1, start;
    while i < |path| && path[i] != '/'
      invariant start <= i <= start + |h| && n == budget - 1 - (i - start) && n > 0
      invariant o == out + "/" + path[start..i]
    {
      n := n - 1;
      if n == 0 { return; }
      o := o + [path[i]];
      i := i + 1;
    }
    assert path[start..i] == h;
  }

  /** Where the first component ends. */
  lemma HeadAt(path: string, start: nat)
    requires start < |path|
    ensures var h := Head(path[start..]);
            && start + |h| <= |path| && path[start..start + |h|] == h
            && (forall j :: start <= j < start + |h| ==> path[j] != '/')
            && (start + |h| == |path| || path[start + |h|] == '/')
  {
    var h := Head(path[start..]);
    forall j | start <= j < start + |h| ensures path[j] != '/' { assert h[j - start] in h; }
  }

  lemma RestAt(path: string, start: nat)
    requires start < |path| && path[start] != '/'
    ensures start + |Head(path[start..])| <= |path|
    ensures SkipSlashes(path[start + |Head(path[start..])|..]) == Rest(path[start..])
  {
    assert path[start..][|Head(path[start..])|..] == path[start + |Head(path[start..])|..];
  }

  // The description, case by case

  lemma WalkDot(out: string, p: string, env: Env, follow: bool, levels: nat)
    requires p != "" && p[0] != '/' && levels <= MAX_LINKS && Head(p) == "."
    ensures Walk(out, p, env, follow, levels) == Walk(out, Rest(p), env, follow, levels)
  {
  }

  lemma WalkUp(out: string, p: string, env: Env, follow: bool, levels: nat)
    requires p != "" && p[0] != '/' && levels <= MAX_LINKS && Head(p) == ".."
    ensures Walk(out, p, env, follow, levels) == Walk(Pop(out), Rest(p), env, follow, levels)
  {
  }

  /** Whether a component stops the walk, once there is room for it. */
  function Stopped(out: string, p: string, env: Env, follow: bool, levels: nat): Option<Outcome>
    requires p != "" && p[0] != '/' && levels <= MAX_LINKS
  {
    var out' := out + "/" + Head(p);
    if !follow && Rest(p) == "" then None
    else match env.link(out')
      case Some(target) =>
        if levels >= MAX_LINKS then Some(Fail(ELOOP)) else Some(Restart(Expanded(out, target, Rest(p)), env, follow, levels + 1))
      case None => if |Head(p)| < |p| && env.check(out').Some? then Some(Fail(env.check(out').value)) else None
  }

  lemma WalkIn(out: string, p: string, env: Env, follow: bool, levels: nat)
    requires p != "" && p[0] != '/' && levels <= MAX_LINKS && Plain(Head(p))
    ensures Walk(out, p, env, follow, levels) ==
            if |out| + 2 >= MAX_PATH then Overlong
            else if |out| + 1 + |Head(p)| + 1 >= MAX_PATH then Fail(ENAMETOOLONG)
            else match Stopped(out, p, env, follow, levels)
              case Some(r) => r
              case None => Walk(out + "/" + Head(p), Rest(p), env, follow, levels)
  {
    hide Head, Rest, SkipSlashes, Pop, Expanded;
  }

  lemma RestartIs(path: string, env: Env, follow: bool, levels: nat)
    requires levels <= MAX_LINKS && |path| < MAX_PATH
    ensures Restart(path, env, follow, levels) == Normalized(None, path, env, follow, levels)
  {
  }

  /** Look for a link in place of the component just copied, and otherwise whether the way goes on
      through it. */
  method Enter(path: string, i: nat, next: nat, out: string, o: string, env: Env, follow: bool, levels: nat) returns (r: Option<Outcome>)
    requires i < next <= |path| && path[i] != '/' && levels <= MAX_LINKS
    requires path[next..] == Rest(path[i..]) && o == out + "/" + Head(path[i..])
    requires path[next - 1] == '/' <==> |Head(path[i..])| < |path[i..]|
    ensures r == Stopped(out, path[i..], env, follow, levels)
    decreases MAX_LINKS - levels, 0
  {
    hide Walk, Head, Rest, SkipSlashes, Expanded, Normal, Tidy;
    if follow || next < |path| {
      var target := env.link(o);
      if target.Some? {
        if levels >= MAX_LINKS { return Some(Fail(ELOOP)); }
        var expanded := Expanded(out, target.value, path[next..]);
        if |expanded| >= MAX_PATH { return Some(Overlong); }
        RootNormal();
        RestartIs(expanded, env, follow, levels + 1);
        var s := Normalize(None, expanded, env, follow, levels + 1);
        return Some(s);
      }
      if path[next - 1] == '/' {
        var err := env.check(o);
        if err.Some? { return Some(Fail(err.value)); }
      }
    }
    r := None;
  }

  /** A component that is not a dot or a double dot. */
  method Visit(path: string, i: nat, out: string, env: Env, follow: bool, levels: nat) returns (stop: Option<Outcome>, o: string, next: nat)
    requires i < |path| && path[i] != '/' && levels <= MAX_LINKS && Normal(out) && Plain(Head(path[i..]))
    ensures stop.Some? ==> Walk(out, path[i..], env, follow, levels) == stop.value
    ensures stop.None? ==> i < next <= |path| && (next == |path| || path[next] != '/') && Normal(o)
    ensures stop.None? ==> Walk(out, path[i..], env, follow, levels) == Walk(o, path[next..], env, follow, levels)
    decreases MAX_LINKS - levels, 1
  {
    hide Walk, Stopped, Normal, Head, Rest, SkipSlashes, Plain;
    o, next := out, i;
    RestAt(path, i);
    WalkIn(out, path[i..], env, follow, levels);
    NormalPush(out, Head(path[i..]));
    var n := MAX_PATH - 1 - |out|;
    if n <= 1 {
      stop := Some(Overlong);
      return;
    }
    var j, left;
    j, o, left := CopyComponent(path, i, out, n);
    if left == 0 {
      stop := Some(Fail(ENAMETOOLONG));
      return;
    }
    next := EatSlashes(path, j);
    SlashAfter(path, i, j, next);
    stop := Enter(path, i, next, out, o, env, follow, levels);
  }

  /** __path_normalize. */
  method Normalize(at: Option<string>, path: string, env: Env, follow: bool, levels: nat) returns (r: Outcome)
    requires levels <= MAX_LINKS && Normal(Base(at))
    ensures r == Normalized(at, path, env, follow, levels)
    ensures r.Ok? ==> Normal(r.path) && Tidy(r.path)
    decreases MAX_LINKS - levels, 2
  {
    hide Walk, Normal, Pop, Head, Rest, SkipSlashes, Expanded, Tidy, Plain;
    if path == "" { return Fail(ENOENT); }
    var out := Base(at);
    NormalizedNormal(at, path, env, follow, levels);
    var i := EatSlashes(path, 0);
    assert path[0..] == path;
    while i < |path|
      invariant 0 <= i <= |path| && (i == |path| || path[i] != '/') && Normal(out)
      invariant Walk(out, path[i..], env, follow, levels) == Normalized(at, path, env, follow, levels)
      decreases |path| - i
    {
      ghost var p := path[i..];
      RestAt(path, i);
      if path[i] == '.' && (i + 1 == |path| || path[i + 1] == '/') {
        DotHead(p);
        WalkDot(out, p, env, follow, levels);
        i := EatSlashes(path, i + 1);
        continue;
      }
      if path[i] == '.' && path[i + 1] == '.' && (i + 2 == |path| || path[i + 2] == '/') {
        DotDotHead(p);
        WalkUp(out, p, env, follow, levels);
        NormalPop(out);
        NormalStart(out);
        out := DeleteLast(out);
        i := EatSlashes(path, i + 2);
        continue;
      }
      NotDots(p);
      var stop, o, next := Visit(path, i, out, env, follow, levels);
      if stop.Some? { return stop.value; }
      out, i := o, next;
    }
    WalkEnd(out, env, follow, levels);
    r := Ok(out);
  }

  lemma WalkEnd(out: string, env: Env, follow: bool, levels: nat)
    requires levels <= MAX_LINKS
    ensures Walk(out, "", env, follow, levels) == Ok(out)
  {
  }

  /** Where no link is met on the way, a path names the fold of its components over those of the directory it
      starts from, never above the root, and each outcome has its exact condition: the path is
      right if no component takes the result over 4094 bytes, refused if one does from below, and
      not noticed if one does from 4094 bytes on. */
  lemma NormalizedFolds(cs: seq<string>, path: string, env: Env, follow: bool, levels: nat)
    requires levels <= MAX_LINKS && AllPlain(cs) && Smooth(cs, Components(path), env) && path != ""
    ensures var r, names := Normalized(Some(Join(cs)), path, env, follow, levels), Components(path);
            && AllPlain(Fold(cs, names))
            && (r.Ok? <==> Fits(cs, names)) && (r.Ok? ==> r.path == Join(Fold(cs, names)))
            && (r == Overlong <==> exists k: nat :: FirstTooLong(cs, names, k) && |Join(Fold(cs, names[..k]))| >= LONGEST)
            && (r == Fail(ENAMETOOLONG) <==> exists k: nat :: FirstTooLong(cs, names, k) && |Join(Fold(cs, names[..k]))| < LONGEST)
  {
    hide Walk, SkipSlashes, Join, AllPlain, Fold, Split, Smooth, FirstTooLong, Fits;
    NotSlash(cs);
    SplitNames(SkipSlashes(path));
    FoldPlain(cs, Components(path));
    WalkExact(cs, SkipSlashes(path), env, follow, levels);
    WalkOutcomes(cs, SkipSlashes(path), env, follow, levels);
  }

  lemma NotSlash(cs: seq<string>)
    requires AllPlain(cs)
    ensures Join(cs) != "/"
  {
    if cs != [] { assert |Join(cs)| >= 1 + |cs[0]|; }
  }

  lemma NormalizedNormal(at: Option<string>, path: string, env: Env, follow: bool, levels: nat)
    requires levels <= MAX_LINKS && Normal(Base(at))
    ensures var r := Normalized(at, path, env, follow, levels); r.Ok? ==> Normal(r.path) && Tidy(r.path)
  {
    hide Walk, SkipSlashes, Normal, Tidy;
    WalkNormal(Base(at), SkipSlashes(path), env, follow, levels);
    var r := Normalized(at, path, env, follow, levels);
    if r.Ok? { NormalTidy(r.path); }
  }

  lemma NormalTidy(p: string)
    requires Normal(p)
    ensures Tidy(p)
  {
    hide Tidy;
    var cs :| AllPlain(cs) && p == Join(cs);
    JoinTidy(cs);
  }

  lemma NormalStart(p: string)
    requires Normal(p)
    ensures p != "" ==> p[0] == '/'
  {
    var cs :| AllPlain(cs) && p == Join(cs);
    JoinStart(cs);
  }

  lemma DotHead(p: string)
    requires p != "" && p[0] == '.' && (|p| == 1 || p[1] == '/')
    ensures Head(p) == "."
  {
    assert p == "." + p[1..];
    HeadOf(".", p[1..]);
  }

  lemma DotDotHead(p: string)
    requires |p| >= 2 && p[0] == '.' && p[1] == '.' && (|p| == 2 || p[2] == '/')
    ensures Head(p) == ".."
  {
    assert p == ".." + p[2..];
    HeadOf("..", p[2..]);
  }

  lemma NotDots(p: string)
    requires p != "" && p[0] != '/'
    requires !(p[0] == '.' && (|p| == 1 || p[1] == '/')) && !(|p| >= 2 && p[0] == '.' && p[1] == '.' && (|p| == 2 || p[2] == '/'))
    ensures Plain(Head(p))
  {
    var h := Head(p);
    HeadName(p);
    assert |h| == |p| || p[|h|] == '/';
    assert h == p[..|h|];
  }

  /** A slash before the next component is one after the last. */
  lemma SlashAfter(path: string, i: nat, j: nat, next: nat)
    requires i < |path| && path[i] != '/' && j == i + |Head(path[i..])| <= next <= |path|
    requires (next == j || path[next - 1] == '/') && (next == |path| || path[next] != '/')
    ensures i < next && (path[next - 1] == '/' <==> |Head(path[i..])| < |path[i..]|)
  {
    HeadAt(path, i);
    HeadName(path[i..]);
  }
}
