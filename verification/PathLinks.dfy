/** Symbolic links (fs/path.c). The source expands a link by starting again from the root with the
    whole path so far; here that is shown to be the same as putting the link's target in its place. */
module PathLinks {

  import opened Options
  import opened PathNames
  import opened PathNormalize

  /** What is left to walk once a link has its target in its place. */
  function Onward(target: string, rest: string): string { target + if rest == "" then "" else "/" + rest }

  predicate Absolute(target: string) { target != "" && target[0] == '/' }

  /** A walk with a stack of components that goes on where it is when it meets a link: from the root
      for an absolute target, and else from the directory that holds the link. */
  function InPlace(cs: seq<string>, p: string, env: Env, follow: bool, levels: nat): Outcome
    requires (p == "" || p[0] != '/') && levels <= MAX_LINKS
    decreases MAX_LINKS - levels, |p|
  {
    if p == "" then Ok(Join(cs))
    else if !Plain(Head(p)) then InPlace(Step(cs, Head(p)), Rest(p), env, follow, levels)
    else if |Join(cs)| >= LONGEST then Overlong
    else if |Join(cs + [Head(p)])| > LONGEST then Fail(ENAMETOOLONG)
    else if !follow && Rest(p) == "" then Ok(Join(cs + [Head(p)]))
    else match env.link(Join(cs + [Head(p)]))
      case Some(target) =>
        if levels >= MAX_LINKS then Fail(ELOOP)
        else if |Expanded(Join(cs), target, Rest(p))| >= MAX_PATH then Overlong
        else InPlace(if Absolute(target) then [] else cs, SkipSlashes(Onward(target, Rest(p))), env, follow, levels + 1)
      case None =>
        if |Head(p)| < |p| && env.check(Join(cs + [Head(p)])).Some? then Fail(env.check(Join(cs + [Head(p)])).value)
        else InPlace(cs + [Head(p)], Rest(p), env, follow, levels)
  }

  /** A directory that can be walked to again from the root without meeting a link or a refusal. */
  ghost predicate Clean(cs: seq<string>, env: Env) {
    AllPlain(cs) && forall k :: 0 < k <= |cs| ==> Clear(env, Join(cs[..k]))
  }

  lemma CleanTake(cs: seq<string>, n: nat, env: Env)
    requires Clean(cs, env) && n <= |cs|
    ensures Clean(cs[..n], env)
  {
    forall k | 0 < k <= n ensures Clear(env, Join(cs[..n][..k])) { assert cs[..n][..k] == cs[..k]; }
  }

  lemma CleanPush(cs: seq<string>, c: string, env: Env)
    requires Clean(cs, env) && Plain(c) && Clear(env, Join(cs + [c]))
    ensures Clean(cs + [c], env)
  {
    var up := cs + [c];
    forall k | 0 < k <= |up| ensures Clear(env, Join(up[..k])) {
      if k <= |cs| { assert up[..k] == cs[..k]; } else { assert up[..k] == up; }
    }
  }

  // Walking to the same directory again

  lemma {:induction false} JoinLonger(cs: seq<string>, n: nat)
    requires n <= |cs|
    ensures |Join(cs[..n])| <= |Join(cs)|
  {
    JoinAppend(cs[..n], cs[n..]);
    assert cs[..n] + cs[n..] == cs;
  }

  lemma SkipOne(t: string)
    ensures SkipSlashes("/" + t) == SkipSlashes(t)
  {
    assert ("/" + t)[1..] == t;
  }

  /** The next component of a directory that is walked to again. */
  lemma NextAgain(c: string, s: string)
    requires Plain(c) && s != "" && s[0] == '/'
    ensures var p := SkipSlashes("/" + c + s); p == c + s && Head(p) == c && Rest(p) == SkipSlashes(s)
  {
    assert "/" + c + s == "/" + (c + s);
    SkipOne(c + s);
    assert c[0] in c && (c + s)[0] == c[0];
    HeadOf(c, s);
    assert (c + s)[|c|..] == s;
  }

  lemma PassThrough(out: string, p: string, env: Env, follow: bool, levels: nat)
    requires p != "" && p[0] != '/' && levels <= MAX_LINKS && Plain(Head(p))
    requires |out| + 2 < MAX_PATH && |out + "/" + Head(p)| + 1 < MAX_PATH && Clear(env, out + "/" + Head(p))
    ensures Walk(out, p, env, follow, levels) == Walk(out + "/" + Head(p), Rest(p), env, follow, levels)
  {
  }

  /** From part of the way there, the walk comes to the directory and goes on with what follows. */
  lemma {:induction false} WalkAgain(cs: seq<string>, n: nat, t: string, env: Env, follow: bool, levels: nat)
    requires n <= |cs| && Clean(cs, env) && |Join(cs)| <= LONGEST && levels <= MAX_LINKS
    ensures Walk(Join(cs[..n]), SkipSlashes(Join(cs[n..]) + "/" + t), env, follow, levels) == Walk(Join(cs), SkipSlashes(t), env, follow, levels)
    decreases |cs| - n
  {
    hide Walk, SkipSlashes, Head, Rest, Plain, Join;
    if n == |cs| {
      assert cs[..n] == cs && cs[n..] == [];
      NoneLeft(t);
      SkipOne(t);
    } else {
      var c, s := cs[n], Join(cs[n + 1..]) + "/" + t;
      assert Plain(c) && c != "" by { assert AllPlain(cs); PlainName(c); }
      assert cs[n..] == [c] + cs[n + 1..] && cs[..n + 1] == cs[..n] + [c];
      JoinFirst(c, cs[n + 1..]);
      JoinLast(cs[..n], c);
      JoinLonger(cs, n + 1);
      SlashNext(cs[n + 1..], t);
      NextAgain(c, s);
      assert Join(cs[n..]) + "/" + t == "/" + c + s;
      PassThrough(Join(cs[..n]), c + s, env, follow, levels);
      WalkAgain(cs, n + 1, t, env, follow, levels);
    }
  }

  lemma PlainName(c: string)
    requires Plain(c)
    ensures c != ""
  {
  }

  lemma NoneLeft(t: string)
    ensures Join([]) + "/" + t == "/" + t
  {
  }

  lemma JoinFirst(c: string, rest: seq<string>)
    ensures Join([c] + rest) == "/" + c + Join(rest)
  {
    assert ([c] + rest)[1..] == rest;
  }

  lemma SlashNext(rest: seq<string>, t: string)
    ensures var s := Join(rest) + "/" + t; s != "" && s[0] == '/'
  {
    JoinStart(rest);
  }

  /** Starting again from the root with an expanded link is going on from its directory. */
  lemma ExpandedAgain(cs: seq<string>, target: string, rest: string, env: Env, follow: bool, levels: nat)
    requires Clean(cs, env) && |Join(cs)| <= LONGEST && levels <= MAX_LINKS && |Expanded(Join(cs), target, rest)| < MAX_PATH
    ensures Restart(Expanded(Join(cs), target, rest), env, follow, levels) ==
            Walk(if Absolute(target) then "" else Join(cs), SkipSlashes(Onward(target, rest)), env, follow, levels)
  {
    hide SkipSlashes, Join, Clean;
    var t := Onward(target, rest);
    if !Absolute(target) {
      assert Expanded(Join(cs), target, rest) == Join(cs) + "/" + t;
      assert cs[..0] == [] && cs[0..] == cs && Join([]) == "" by { EmptyJoin(); }
      WalkAgain(cs, 0, t, env, follow, levels);
    }
  }

  lemma EmptyJoin()
    ensures Join([]) == ""
  {
  }

  lemma PushedJoin(cs: seq<string>, c: string)
    ensures Join(cs + [c]) == Join(cs) + "/" + c && |Join(cs + [c])| == |Join(cs)| + 1 + |c|
  {
    JoinLast(cs, c);
  }

  lemma CleanStep(cs: seq<string>, c: string, env: Env)
    requires Clean(cs, env) && (c == "." || c == "..")
    ensures Clean(Step(cs, c), env)
  {
    hide Clean;
    if c == ".." && cs != [] { CleanTake(cs, |cs| - 1, env); }
  }

  lemma CleanPlain(cs: seq<string>, env: Env)
    requires Clean(cs, env)
    ensures AllPlain(cs)
  {
  }

  lemma RootClean(env: Env)
    ensures Clean([], env)
  {
  }

  lemma RestMore(p: string)
    requires p != "" && p[0] != '/' && Rest(p) != ""
    ensures |Head(p)| < |p|
  {
  }

  lemma NotDotsPlain(c: string)
    requires Name(c)
    ensures Plain(c) <==> c != "." && c != ".."
  {
  }

  /** The walk stops here, or goes on through the component. */
  predicate GoesOn(cs: seq<string>, p: string, env: Env, follow: bool)
    requires p != "" && p[0] != '/'
  {
    var q := Join(cs + [Head(p)]);
    && |Join(cs)| < LONGEST && |q| <= LONGEST
    && ((!follow && Rest(p) == "") || (env.link(q) == None && (|Head(p)| < |p| ==> env.check(q) == None)))
  }

  lemma AtComponent(cs: seq<string>, p: string, env: Env, follow: bool, levels: nat)
    requires p != "" && p[0] != '/' && levels <= MAX_LINKS && Plain(Head(p)) && GoesOn(cs, p, env, follow)
    ensures Walk(Join(cs), p, env, follow, levels) == Walk(Join(cs + [Head(p)]), Rest(p), env, follow, levels)
    ensures InPlace(cs, p, env, follow, levels) == InPlace(cs + [Head(p)], Rest(p), env, follow, levels)
  {
    hide SkipSlashes, Join, Head, Rest, Expanded, Onward, Absolute;
    PushedJoin(cs, Head(p));
  }

  lemma GoesOnClear(cs: seq<string>, p: string, env: Env, follow: bool)
    requires p != "" && p[0] != '/' && GoesOn(cs, p, env, follow) && Rest(p) != ""
    ensures Clear(env, Join(cs + [Head(p)]))
  {
    RestMore(p);
  }

  /** The component is a link that is expanded. */
  predicate LeadsOn(cs: seq<string>, p: string, env: Env, follow: bool, levels: nat)
    requires p != "" && p[0] != '/'
  {
    var q := Join(cs + [Head(p)]);
    && (follow || Rest(p) != "") && levels < MAX_LINKS && |Join(cs)| < LONGEST && |q| <= LONGEST
    && env.link(q).Some? && |Expanded(Join(cs), env.link(q).value, Rest(p))| < MAX_PATH
  }

  /** Where both stop, they stop for the same reason. */
  lemma AtStop(cs: seq<string>, p: string, env: Env, follow: bool, levels: nat)
    requires p != "" && p[0] != '/' && levels <= MAX_LINKS && Plain(Head(p)) && !GoesOn(cs, p, env, follow) && !LeadsOn(cs, p, env, follow, levels)
    ensures Walk(Join(cs), p, env, follow, levels) == InPlace(cs, p, env, follow, levels)
  {
    hide SkipSlashes, Join, Head, Rest, Expanded, Onward, Absolute;
    PushedJoin(cs, Head(p));
    var link := env.link(Join(cs + [Head(p)]));
    if link.Some? && levels < MAX_LINKS {
      var path := Expanded(Join(cs), link.value, Rest(p));
      assert |path| >= MAX_PATH ==> ExploreLink(path, env, follow, levels + 1) == Walked(Overlong, 0);
    }
  }

  /** A link: both walks go on with its target, one level further down. */
  lemma AtLink(cs: seq<string>, p: string, env: Env, follow: bool, levels: nat) returns (target: string)
    requires p != "" && p[0] != '/' && Plain(Head(p)) && LeadsOn(cs, p, env, follow, levels)
    ensures env.link(Join(cs + [Head(p)])) == Some(target)
    ensures Walk(Join(cs), p, env, follow, levels) == Restart(Expanded(Join(cs), target, Rest(p)), env, follow, levels + 1)
    ensures levels < MAX_LINKS && |Join(cs)| <= LONGEST && |Expanded(Join(cs), target, Rest(p))| < MAX_PATH
    ensures InPlace(cs, p, env, follow, levels) ==
            InPlace(if Absolute(target) then [] else cs, SkipSlashes(Onward(target, Rest(p))), env, follow, levels + 1)
  {
    hide SkipSlashes, Join, Head, Rest, Expanded, Onward, Absolute;
    PushedJoin(cs, Head(p));
    target := env.link(Join(cs + [Head(p)])).value;
  }

  /** From a directory that can be walked to again, and so from the root, expanding links by starting
      over is putting each target in the place of its link, with the same errors, and with the same
      two ways to run out of room. */
  lemma {:induction false} WalkInPlace(cs: seq<string>, p: string, env: Env, follow: bool, levels: nat)
    requires (p == "" || p[0] != '/') && levels <= MAX_LINKS && (p != "" ==> Clean(cs, env))
    ensures Walk(Join(cs), p, env, follow, levels) == InPlace(cs, p, env, follow, levels)
    decreases MAX_LINKS - levels, |p|
  {
    hide Walk, InPlace, SkipSlashes, Join, Clean, Head, Rest, Step, Expanded, Onward, Absolute, Plain, GoesOn, LeadsOn;
    if p == "" {
      AtEnd(cs, env, follow, levels);
      return;
    }
    HeadName(p);
    NotDotsPlain(Head(p));
    if !Plain(Head(p)) {
      CleanStep(cs, Head(p), env);
      CleanPlain(cs, env);
      AtDots(cs, p, env, follow, levels);
      WalkInPlace(Step(cs, Head(p)), Rest(p), env, follow, levels);
    } else if GoesOn(cs, p, env, follow) {
      AtComponent(cs, p, env, follow, levels);
      if Rest(p) != "" {
        GoesOnClear(cs, p, env, follow);
        CleanPush(cs, Head(p), env);
      }
      WalkInPlace(cs + [Head(p)], Rest(p), env, follow, levels);
    } else if LeadsOn(cs, p, env, follow, levels) {
      var target := AtLink(cs, p, env, follow, levels);
      ExpandedAgain(cs, target, Rest(p), env, follow, levels + 1);
      RootClean(env);
      EmptyJoin();
      WalkInPlace(if Absolute(target) then [] else cs, SkipSlashes(Onward(target, Rest(p))), env, follow, levels + 1);
    } else {
      AtStop(cs, p, env, follow, levels);
    }
  }

  lemma AtEnd(cs: seq<string>, env: Env, follow: bool, levels: nat)
    requires levels <= MAX_LINKS
    ensures Walk(Join(cs), "", env, follow, levels) == InPlace(cs, "", env, follow, levels)
  {
  }

  lemma AtDots(cs: seq<string>, p: string, env: Env, follow: bool, levels: nat)
    requires p != "" && p[0] != '/' && levels <= MAX_LINKS && AllPlain(cs) && (Head(p) == "." || Head(p) == "..")
    ensures Walk(Join(cs), p, env, follow, levels) == Walk(Join(Step(cs, Head(p))), Rest(p), env, follow, levels)
    ensures InPlace(cs, p, env, follow, levels) == InPlace(Step(cs, Head(p)), Rest(p), env, follow, levels)
  {
    hide SkipSlashes, Join, Head, Rest, Pop, Expanded, Onward, Absolute;
    PopJoin(cs);
  }

  /** Why the directory must be one that can be walked to again: below one that may not be searched,
      a link to a name beside it is refused, where the name itself is not. */
  lemma RestartExample()
    ensures exists cs, p, env: Env ::
              AllPlain(cs) && p != "" && p[0] != '/' && Walk(Join(cs), p, env, true, 0) == Fail(EACCES) && InPlace(cs, p, env, true, 0) == Ok("/a/b")
  {
    hide Walk, InPlace, Join, Head, Rest, SkipSlashes;
    var env := Env(q => if q == "/a/l" then Some("b") else None, q => if q == "/a" then Some(EACCES) else None);
    var cs := ["a"];
    SmallNames(cs);
    var target := AtLink(cs, "l", env, true, 0);
    assert Onward("b", "") == "b";
    AtComponent(cs, "b", env, true, 1);
    OkHere(cs + ["b"], env);
    RefusedAgain(env);
  }

  lemma SmallNames(cs: seq<string>)
    requires cs == ["a"]
    ensures Join(cs) == "/a" && Join(cs + ["l"]) == "/a/l" && Join(cs + ["b"]) == "/a/b" && AllPlain(cs)
    ensures Head("l") == "l" && Rest("l") == "" && Head("b") == "b" && Rest("b") == "" && SkipSlashes("b") == "b"
  {
    JoinLast([], "a");
    JoinLast(cs, "l");
    JoinLast(cs, "b");
    EmptyJoin();
    assert [] + ["a"] == cs;
    OneName("l");
    OneName("b");
  }

  lemma OkHere(cs: seq<string>, env: Env)
    ensures InPlace(cs, "", env, true, 1) == Ok(Join(cs))
  {
  }

  lemma OneName(c: string)
    requires |c| == 1 && c[0] != '/' && c[0] != '.'
    ensures Head(c) == c && Rest(c) == "" && Plain(c)
  {
    assert c + "" == c;
    HeadOf(c, "");
    assert c[1..] == "";
  }

  lemma RefusedAgain(env: Env)
    requires env.link("/a") == None && env.check("/a") == Some(EACCES)
    ensures Restart(Expanded("/a", "b", ""), env, true, 1) == Fail(EACCES)
  {
    assert Expanded("/a", "b", "") == "/a/b";
    SkipOne("a/b");
    assert "/a/b" == "/" + "a/b" && SkipSlashes("a/b") == "a/b";
    assert "a/b" == "a" + "/b";
    HeadOf("a", "/b");
    assert "" + "/" + "a" == "/a";
  }
}
