/** Path normalization (fs/path.c): dots, double dots and a bounded number of symbolic links. */
module PathNormalize {

  import opened Options
  import opened PathNames

  const MAX_PATH: nat := 4096
  const MAX_LINKS: nat := 5

  datatype Error = ENOENT | ENAMETOOLONG | ELOOP | ENOTDIR | EACCES

  /** Overlong is what is left when a buffer of MAX_PATH bytes is full: either the next component
      finds no room for its slash, and the source goes on past the end of the buffer, or a path
      with its expanded link does not fit. WalkExact says when the first of these happens, and
      PathLinks when either does. */
  datatype Outcome = Ok(path: string) | Fail(error: Error) | Overlong

  /** The file system: where a path is a symbolic link to, and what is wrong with going through it
      as a directory. */
  datatype Env = Env(link: string -> Option<string>, check: string -> Option<Error>)

  /** The path without its last component; the root stays the root. */
  function Pop(out: string): (r: string)
    ensures |r| <= |out|
  {
    if out == "" then "" else if out[|out| - 1] == '/' then out[..|out| - 1] else Pop(out[..|out| - 1])
  }

  /** The path to go on with after a link: its target, from the root or in place of the component,
      and what is left. */
  function Expanded(out: string, target: string, rest: string): string {
    (if target != "" && target[0] == '/' then target else out + "/" + target) + (if rest == "" then "" else "/" + rest)
  }

  /** What comes of a path, and how many links were expanded on the way. */
  datatype Walked = Walked(outcome: Outcome, links: nat)

  /** The rest of a path, from an output so far. */
  function Explore(out: string, p: string, env: Env, follow: bool, levels: nat): Walked
    requires (p == "" || p[0] != '/') && levels <= MAX_LINKS
    decreases MAX_LINKS - levels, |p|
  {
    if p == "" then Walked(Ok(out), 0)
    else if Head(p) == "." then Explore(out, Rest(p), env, follow, levels)
    else if Head(p) == ".." then Explore(Pop(out), Rest(p), env, follow, levels)
    else if |out| + 2 >= MAX_PATH then Walked(Overlong, 0)
    else
      var out' := out + "/" + Head(p);
      if |out'| + 1 >= MAX_PATH then Walked(Fail(ENAMETOOLONG), 0)
      else if !follow && Rest(p) == "" then Explore(out', Rest(p), env, follow, levels)
      else match env.link(out')
        case Some(target) =>
          if levels >= MAX_LINKS then Walked(Fail(ELOOP), 0) else ExploreLink(Expanded(out, target, Rest(p)), env, follow, levels + 1)
        case None =>
          if |Head(p)| < |p| && env.check(out').Some? then Walked(Fail(env.check(out').value), 0)
          else Explore(out', Rest(p), env, follow, levels)
  }

  function ExploreLink(path: string, env: Env, follow: bool, levels: nat): Walked
    requires levels <= MAX_LINKS
    decreases MAX_LINKS - levels, |path| + 1
  {
    if |path| >= MAX_PATH then Walked(Overlong, 0)
    else if path == "" then Walked(Fail(ENOENT), 1)
    else
      var w := Explore("", SkipSlashes(path), env, follow, levels);
      w.(links := w.links + 1)
  }

  function Walk(out: string, p: string, env: Env, follow: bool, levels: nat): Outcome
    requires (p == "" || p[0] != '/') && levels <= MAX_LINKS
  {
    Explore(out, p, env, follow, levels).outcome
  }

  function Restart(path: string, env: Env, follow: bool, levels: nat): Outcome
    requires levels <= MAX_LINKS
  {
    ExploreLink(path, env, follow, levels).outcome
  }

  // The same without links: a stack of components

  function Step(cs: seq<string>, c: string): seq<string> {
    if c == "." then cs
    else if c == ".." then (if cs == [] then [] else cs[..|cs| - 1])
    else cs + [c]
  }

  function Fold(cs: seq<string>, names: seq<string>): seq<string>
    decreases |names|
  {
    if names == [] then cs else Fold(Step(cs, names[0]), names[1..])
  }

  lemma StepPlain(cs: seq<string>, c: string)
    requires AllPlain(cs) && Name(c)
    ensures AllPlain(Step(cs, c))
  {
  }

  lemma PopAfter(s: string, c: string)
    requires '/' !in c
    ensures Pop(s + "/" + c) == s
    decreases |c|
  {
    var t := s + "/" + c;
    if c == "" {
      assert t[|t| - 1] == '/' && t[..|t| - 1] == s;
    } else {
      assert t[|t| - 1] == c[|c| - 1] && c[|c| - 1] in c;
      assert t[..|t| - 1] == s + "/" + c[..|c| - 1];
      PopAfter(s, c[..|c| - 1]);
    }
  }

  lemma JoinLast(cs: seq<string>, c: string)
    ensures Join(cs + [c]) == Join(cs) + "/" + c
  {
    JoinAppend(cs, [c]);
    assert [c][1..] == [] && Join([c]) == "/" + c + Join([]);
  }

  /** Going up is taking the last component off the stack. */
  lemma PopJoin(cs: seq<string>)
    requires AllPlain(cs)
    ensures Pop(Join(cs)) == Join(Step(cs, ".."))
  {
    if cs != [] {
      var n := |cs| - 1;
      assert cs == cs[..n] + [cs[n]];
      JoinLast(cs[..n], cs[n]);
      PopAfter(Join(cs[..n]), cs[n]);
    }
  }

  lemma HeadName(p: string)
    requires p != "" && p[0] != '/'
    ensures Name(Head(p))
  {
  }

  // Normal form

  ghost predicate Normal(p: string) { exists cs :: AllPlain(cs) && p == Join(cs) }

  lemma NormalPop(out: string)
    requires Normal(out)
    ensures Normal(Pop(out))
  {
    var cs :| AllPlain(cs) && out == Join(cs);
    PopJoin(cs);
    assert AllPlain(Step(cs, ".."));
  }

  lemma NormalPush(out: string, c: string)
    requires Normal(out) && Plain(c)
    ensures Normal(out + "/" + c)
  {
    var cs :| AllPlain(cs) && out == Join(cs);
    JoinLast(cs, c);
    assert AllPlain(cs + [c]);
  }

  lemma RootNormal()
    ensures Normal("")
  {
    assert AllPlain([]) && Join([]) == "";
  }

  /** Every path that comes out is normal: no empty component, no dot and no double dot. */
  lemma {:induction false} WalkNormal(out: string, p: string, env: Env, follow: bool, levels: nat)
    requires (p == "" || p[0] != '/') && levels <= MAX_LINKS && Normal(out)
    ensures var r := Walk(out, p, env, follow, levels); r.Ok? ==> Normal(r.path)
    decreases MAX_LINKS - levels, |p|
  {
    hide Normal, Pop, Head, Rest, SkipSlashes;
    if p != "" {
      HeadName(p);
      if Head(p) == "." {
        WalkNormal(out, Rest(p), env, follow, levels);
      } else if Head(p) == ".." {
        NormalPop(out);
        WalkNormal(Pop(out), Rest(p), env, follow, levels);
      } else {
        var out' := out + "/" + Head(p);
        NormalPush(out, Head(p));
        WalkNormal(out', Rest(p), env, follow, levels);
        if env.link(out').Some? && levels < MAX_LINKS {
          RootNormal();
          var path := Expanded(out, env.link(out').value, Rest(p));
          WalkNormal("", SkipSlashes(path), env, follow, levels + 1);
          assert Restart(path, env, follow, levels + 1).Ok? ==>
                 Restart(path, env, follow, levels + 1) == Walk("", SkipSlashes(path), env, follow, levels + 1);
        }
      }
    }
  }

  // Links

  /** At most five links are ever expanded, and a path is refused for links only after five. */
  lemma {:induction false} LinksBounded(out: string, p: string, env: Env, follow: bool, levels: nat)
    requires (p == "" || p[0] != '/') && levels <= MAX_LINKS && forall q :: env.check(q) != Some(ELOOP)
    ensures var w := Explore(out, p, env, follow, levels);
            w.links <= MAX_LINKS - levels && (w.outcome == Fail(ELOOP) ==> w.links == MAX_LINKS - levels)
    decreases MAX_LINKS - levels, |p|
  {
    hide Pop, Head, Rest, SkipSlashes, Expanded;
    if p != "" {
      if Head(p) == "." {
        LinksBounded(out, Rest(p), env, follow, levels);
      } else if Head(p) == ".." {
        LinksBounded(Pop(out), Rest(p), env, follow, levels);
      } else {
        var out' := out + "/" + Head(p);
        LinksBounded(out', Rest(p), env, follow, levels);
        if env.link(out').Some? && levels < MAX_LINKS {
          var path := Expanded(out, env.link(out').value, Rest(p));
          LinksBounded("", SkipSlashes(path), env, follow, levels + 1);
        }
      }
    }
  }

  // Without links

  /** Not a link, and nothing wrong with going through it. */
  predicate Clear(env: Env, q: string) { env.link(q) == None && env.check(q) == None }

  /** No link and nothing wrong on the way. */
  ghost predicate Smooth(cs: seq<string>, names: seq<string>, env: Env) {
    forall k :: 0 <= k < |names| && Plain(names[k]) ==> Clear(env, Join(Fold(cs, names[..k + 1])))
  }

  lemma SmoothRest(cs: seq<string>, c: string, rest: seq<string>, env: Env)
    requires Smooth(cs, [c] + rest, env)
    ensures Smooth(Step(cs, c), rest, env) && (Plain(c) ==> Clear(env, Join(Step(cs, c))))
  {
    hide Join, Plain, Step, Clear;
    var names := [c] + rest;
    forall k | 0 <= k < |rest| && Plain(rest[k]) ensures Clear(env, Join(Fold(Step(cs, c), rest[..k + 1]))) {
      FoldLater(cs, c, rest, k + 1);
      assert names[k + 1] == rest[k];
    }
    FoldLater(cs, c, rest, 0);
    assert names[0] == c;
  }

  const LONGEST: nat := MAX_PATH - 2

  /** The component at k puts the result over the longest path that fits. */
  predicate TooLong(cs: seq<string>, names: seq<string>, k: nat)
    requires k < |names|
  {
    Plain(names[k]) && |Join(Fold(cs, names[..k + 1]))| > LONGEST
  }

  ghost predicate Fits(cs: seq<string>, names: seq<string>) { forall k :: 0 <= k < |names| ==> !TooLong(cs, names, k) }

  ghost predicate FirstTooLong(cs: seq<string>, names: seq<string>, k: nat) {
    k < |names| && TooLong(cs, names, k) && forall j :: 0 <= j < k ==> !TooLong(cs, names, j)
  }

  /** Without links, a path comes out as the stack of its components if and only if no component
      on the way puts the result over 4094 bytes. Otherwise the first one that does decides: the
      path is refused as too long, unless the result was already 4094 bytes or more before it,
      when the source does not notice. */
  lemma {:induction false} WalkExact(cs: seq<string>, p: string, env: Env, follow: bool, levels: nat)
    requires (p == "" || p[0] != '/') && levels <= MAX_LINKS && AllPlain(cs) && Smooth(cs, Split(p), env)
    ensures var r, names := Walk(Join(cs), p, env, follow, levels), Split(p);
            && (Fits(cs, names) ==> r == Ok(Join(Fold(cs, names))))
            && (forall k: nat :: FirstTooLong(cs, names, k) ==>
                  r == if |Join(Fold(cs, names[..k]))| >= LONGEST then Overlong else Fail(ENAMETOOLONG))
    decreases |p|
  {
    hide Head, Rest, Join, AllPlain, Pop, FirstTooLong, Fits, Plain, Smooth;
    if p == "" {
      NoneTooLong(cs);
    } else {
      var h := Head(p);
      HeadName(p);
      StepPlain(cs, h);
      FoldStep(cs, p);
      SmoothRest(cs, h, Split(Rest(p)), env);
      if h == "." {
        WalkExact(cs, Rest(p), env, follow, levels);
        NotPlain(h);
        LaterTooLong(cs, h, Split(Rest(p)));
      } else if h == ".." {
        PopJoin(cs);
        WalkExact(Step(cs, ".."), Rest(p), env, follow, levels);
        NotPlain(h);
        LaterTooLong(cs, h, Split(Rest(p)));
      } else {
        JoinLast(cs, h);
        NamePlain(h);
        if |Join(cs + [h])| > LONGEST {
          NowTooLong(cs, h, Split(Rest(p)));
        } else {
          WalkExact(cs + [h], Rest(p), env, follow, levels);
          LaterTooLong(cs, h, Split(Rest(p)));
        }
      }
    }
  }

  lemma NotPlain(c: string)
    requires c == "." || c == ".."
    ensures !Plain(c)
  {
  }

  lemma NamePlain(c: string)
    requires Name(c) && c != "." && c != ".."
    ensures Plain(c) && |c| > 0
  {
  }

  lemma NoneTooLong(cs: seq<string>)
    ensures Fits(cs, []) && forall k: nat :: !FirstTooLong(cs, [], k)
  {
  }

  lemma FoldLater(cs: seq<string>, c: string, rest: seq<string>, k: nat)
    requires k <= |rest|
    ensures Fold(cs, ([c] + rest)[..k + 1]) == Fold(Step(cs, c), rest[..k])
  {
    var s := ([c] + rest)[..k + 1];
    assert s[0] == c && s[1..] == rest[..k];
  }

  /** When the first component is no trouble, the rest decides. */
  lemma LaterTooLong(cs: seq<string>, c: string, rest: seq<string>)
    requires !(Plain(c) && |Join(Step(cs, c))| > LONGEST)
    ensures var names := [c] + rest;
            && Fold(cs, names) == Fold(Step(cs, c), rest)
            && (Fits(cs, names) <==> Fits(Step(cs, c), rest))
            && (forall k: nat :: FirstTooLong(cs, names, k) ==>
                  && k > 0 && FirstTooLong(Step(cs, c), rest, k - 1)
                  && Fold(cs, names[..k]) == Fold(Step(cs, c), rest[..k - 1]))
  {
    hide Join, Plain, Step;
    var names := [c] + rest;
    FoldLater(cs, c, rest, 0);
    forall k | 0 < k < |names| ensures TooLong(cs, names, k) <==> TooLong(Step(cs, c), rest, k - 1) {
      FoldLater(cs, c, rest, k);
    }
    assert !TooLong(cs, names, 0);
    forall j | 0 <= j < |rest| ensures TooLong(Step(cs, c), rest, j) <==> TooLong(cs, names, j + 1) {}
    FoldLater(cs, c, rest, |rest|);
    assert names[..|rest| + 1] == names;
    forall k: nat | FirstTooLong(cs, names, k)
      ensures k > 0 && FirstTooLong(Step(cs, c), rest, k - 1) && Fold(cs, names[..k]) == Fold(Step(cs, c), rest[..k - 1])
    {
      FoldLater(cs, c, rest, k - 1);
    }
  }

  lemma NowTooLong(cs: seq<string>, c: string, rest: seq<string>)
    requires Plain(c) && |Join(Step(cs, c))| > LONGEST
    ensures var names := [c] + rest;
            !Fits(cs, names) && (forall k: nat :: FirstTooLong(cs, names, k) ==> k == 0 && Fold(cs, names[..k]) == cs)
  {
    hide Join, Plain, Step;
    var names := [c] + rest;
    FoldLater(cs, c, rest, 0);
    assert TooLong(cs, names, 0);
  }

  /** So each outcome has its condition. */
  lemma WalkOutcomes(cs: seq<string>, p: string, env: Env, follow: bool, levels: nat)
    requires (p == "" || p[0] != '/') && levels <= MAX_LINKS && AllPlain(cs) && Smooth(cs, Split(p), env)
    ensures var r, names := Walk(Join(cs), p, env, follow, levels), Split(p);
            && (r.Ok? <==> Fits(cs, names))
            && (r == Overlong <==> exists k: nat :: FirstTooLong(cs, names, k) && |Join(Fold(cs, names[..k]))| >= LONGEST)
            && (r == Fail(ENAMETOOLONG) <==> exists k: nat :: FirstTooLong(cs, names, k) && |Join(Fold(cs, names[..k]))| < LONGEST)
  {
    hide Walk, Join, Fold, Split, AllPlain, Smooth, TooLong;
    WalkExact(cs, p, env, follow, levels);
    if !Fits(cs, Split(p)) { var k := FirstOne(cs, Split(p)); }
  }

  lemma FirstOne(cs: seq<string>, names: seq<string>) returns (k: nat)
    requires !Fits(cs, names)
    ensures FirstTooLong(cs, names, k)
  {
    hide TooLong;
    k := 0;
    while k < |names| && !TooLong(cs, names, k)
      invariant 0 <= k <= |names| && forall j :: 0 <= j < k ==> !TooLong(cs, names, j)
    {
      k := k + 1;
    }
  }

  /** From the root, 4093 letters, a slash and one more letter: 4095 bytes that are not refused. */
  lemma OverlongExample(env: Env, follow: bool, levels: nat)
    requires levels <= MAX_LINKS && forall q :: Clear(env, q)
    ensures exists p :: |p| == MAX_PATH - 1 && p[0] != '/' && Walk("", p, env, follow, levels) == Overlong
  {
    hide Walk, Pop, Clear;
    var c := seq(LONGEST - 1, _ => 'a');
    var p := c + "/b";
    SplitTwo(c);
    JoinTwo(c);
    WalkExact([], p, env, follow, levels);
    assert Step([], c) == [c] && Step([c], "b") == [c, "b"];
    assert [c, "b"][..1] == [c] && [c, "b"][..2] == [c, "b"];
    FoldTwo(c);
    assert FirstTooLong([], [c, "b"], 1);
  }

  lemma SplitTwo(c: string)
    requires Name(c)
    ensures (c + "/b")[0] != '/' && Split(c + "/b") == [c, "b"]
  {
    var p := c + "/b";
    assert p[0] == c[0] && c[0] in c;
    HeadOf(c, "/b");
    assert p[|c|..] == "/b" && "/b"[1..] == "b" && SkipSlashes("b") == "b";
    HeadOf("b", "");
    assert "b" + "" == "b" && "b"[1..] == "";
    assert Rest(p) == "b" && Rest("b") == "";
    assert Split("b") == ["b"];
  }

  lemma JoinTwo(c: string)
    ensures |Join([])| == 0 && |Join([c])| == 1 + |c| && |Join([c, "b"])| == 3 + |c|
  {
    assert [c][1..] == [] && [c, "b"][1..] == ["b"] && ["b"][1..] == [];
  }

  lemma FoldTwo(c: string)
    requires c != "." && c != ".."
    ensures Fold([], [c]) == [c] && Fold([], [c, "b"]) == [c, "b"]
  {
    assert [c][1..] == [] && [c, "b"][1..] == ["b"] && ["b"][1..] == [];
    assert [] + [c] == [c] && [c] + ["b"] == [c, "b"];
    assert Fold([c], ["b"]) == Fold([c, "b"], []);
  }

  lemma FoldStep(cs: seq<string>, p: string)
    requires p != "" && p[0] != '/'
    ensures Fold(cs, Split(p)) == Fold(Step(cs, Head(p)), Split(Rest(p)))
  {
    hide Head, Rest, Step;
    assert Split(p) == [Head(p)] + Split(Rest(p));
    assert Split(p)[1..] == Split(Rest(p));
  }

  /** The result never leaves the tree: what comes out of any names is a stack of plain components. */
  lemma {:induction false} FoldPlain(cs: seq<string>, names: seq<string>)
    requires AllPlain(cs) && AllNames(names)
    ensures AllPlain(Fold(cs, names))
    decreases |names|
  {
    if names != [] {
      StepPlain(cs, names[0]);
      FoldPlain(Step(cs, names[0]), names[1..]);
    }
  }
}
