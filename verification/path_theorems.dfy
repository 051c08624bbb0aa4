// The main results about the symlink resolver, for every link oracle.
module PathTheorems {
  import opened Limits
  import opened PathText
  import opened PathDir
  import opened PathMachine
  import opened PathWalk
  import opened PathFinal
  import opened PathProps

  /** The place a successful resolution spells. */
  ghost function ResolvedDir(env: Env, here: Here, name: string): Dir {
    match WalkText(env, name, StartDir(name), false, 0)
    case Broken(_) => Dir(Root, [])
    case Ended(at) => if here.Names? then Placed(at, here.names) else at
  }

  lemma {:induction false} RunFits(env: Env, st: State)
    requires Fits(st)
    ensures var r := Run(env, st); r.Stopped? ==> |r.out| < PATH_MAX
    decreases SYMLOOP_MAX - st.cnt, |st.text|, st.check
  {
    hide Component, Lead, PieceLen, SkipSlashes, RenderBase;
    if Step(env, st).More? {
      StepSmaller(env, st);
      RunFits(env, Step(env, st).st);
    } else if Step(env, st).r.Stopped? {
      hide Step;
      StepStops(env, st);
    }
  }

  lemma StepStops(env: Env, st: State)
    requires Step(env, st).Halt? && Step(env, st).r.Stopped?
    ensures Step(env, st).r.out == st.out
  {
    hide Take, Lead, PieceLen, SkipSlashes, RenderBase, LookAt, Sep;
  }

  lemma {:induction false} JoinComps(ns: seq<string>)
    requires forall x | x in ns :: IsName(x)
    ensures Comps(JoinNames(ns)) == ns
    decreases |ns|
  {
    hide Comps, Ends, PieceLen, JoinNames;
    if ns == [] {
      JoinStart(ns);
      CompsEmpty();
    } else {
      var r := if |ns| == 1 then "" else "/" + JoinNames(ns[1..]);
      assert IsName(ns[0]);
      JoinHead(ns, r);
      PieceOfName(ns[0], r);
      PieceStep(ns[0] + r);
      JoinComps(ns[1..]);
      SkipSame(r);
      SkipSame(JoinNames(ns[1..]));
    }
  }

  /** The components of a rooted path are its names. */
  lemma RenderComps(at: Dir)
    requires !at.base.Rel? && Named(at)
    ensures Comps(Render(at)) == at.names
  {
    hide Comps, JoinNames, Render, SkipSlashes, Lead;
    RootSplit(at.base, at.names);
    JoinComps(at.names);
    SlashStep(Render(at));
    SkipSame(Render(at)[1..]);
  }

  lemma DropNamed(ns: seq<string>, n: nat)
    requires Named(Dir(Root, ns))
    ensures Named(Dir(Root, DropLast(ns, n)))
    decreases n
  {
    if n > 0 {
      DropNamed(if ns == [] then [] else ns[..|ns| - 1], n - 1);
    }
  }

  lemma PlacedNamed(at: Dir, ns: seq<string>)
    requires Named(at) && Named(Dir(Root, ns))
    ensures !Placed(at, ns).base.Rel? && Named(Placed(at, ns))
  {
    if at.base.Rel? {
      DropNamed(ns, at.base.ups);
    }
  }

  /** p is an absolute path below the length limit, its components exactly the names of d, none of
      them empty, "." or "..". */
  ghost predicate Spells(p: string, d: Dir) {
    && !d.base.Rel? && Named(d) && p == Render(d)
    && 0 < |p| < PATH_MAX && p[0] == '/' && Comps(p) == d.names
  }

  /** A resolved path is absolute and canonical. */
  lemma ResolvedShape(env: Env, here: Here, name: string)
    requires HereOk(here)
    ensures var r := Resolve(env, HereText(here), name); r.Path? ==> Spells(r.path, ResolvedDir(env, here, name))
  {
    hide Run, WalkText, Render, Finish, Lead, Comps, Resolve, ResolveComps;
    var r := Resolve(env, HereText(here), name);
    if r.Path? {
      ResolvePath(env, HereText(here), name);
      var st := State(name, "", 0, false, 0);
      RunFits(env, st);
      StartMatch(st);
      RunWalks(env, st, Dir(Rel(0), []));
      var w := WalkText(env, name, StartDir(name), false, 0);
      FinishPlaces(w.at, here);
      FinishShort(Run(env, st).out, Run(env, st).nup, HereText(here));
      PlacedAt(w.at, here);
      var d := ResolvedDir(env, here, name);
      RenderComps(d);
      RenderLen(d);
    }
  }

  lemma ResolvePath(env: Env, cwd: Cwd, name: string)
    requires (cwd.At? ==> cwd.path != "") && Resolve(env, cwd, name).Path?
    ensures name != "" && |name| < PATH_MAX
    ensures var r := Run(env, State(name, "", 0, false, 0));
            r.Stopped? && Resolve(env, cwd, name) == Finish(r.out, r.nup, cwd)
  {
    hide Run, Finish;
  }

  lemma FinishShort(out: string, nup: nat, cwd: Cwd)
    requires (cwd.At? ==> cwd.path != "") && |out| < PATH_MAX && Finish(out, nup, cwd).Path?
    ensures |Finish(out, nup, cwd).path| < PATH_MAX
  {
    hide CutUps, Below, Sep;
  }

  lemma PlacedAt(at: Dir, here: Here)
    requires Named(at) && HereOk(here) && PlaceAnswer(at, here).Path?
    ensures var d := if here.Names? then Placed(at, here.names) else at;
            !d.base.Rel? && Named(d) && PlaceAnswer(at, here).path == Render(d)
  {
    hide Render, DropLast;
    if here.Names? {
      PlacedNamed(at, here.names);
    }
  }

  /** Relative names are looked up below the current directory, as far as the absolute path is one that
      can be looked up. */
  ghost predicate Coherent(env: Env, cwd: seq<string>) {
    forall n: nat, ns: seq<string>
      | && ns != [] && Named(Dir(Rel(n), ns)) && NotLink(env, Render(Dir(Rel(n), ns)))
        && |Render(Dir(Root, DropLast(cwd, n) + ns))| < PATH_MAX ::
      NotLink(env, Render(Dir(Root, DropLast(cwd, n) + ns)))
  }

  /** The current directory, where it is known and the name does not start at the root: no link on its
      way, and relative names looked up below it. */
  ghost predicate LinkFree(env: Env, here: Here, name: string) {
    here.Names? && !("/" <= name) ==> Coherent(env, here.names) && Clear(env, Dir(Root, here.names))
  }

  /** A file system without links, whatever it answers to texts that are too long, is such a one. */
  lemma LinklessCoherent(env: Env, cwd: seq<string>)
    requires forall t: string | |t| < PATH_MAX :: NotLink(env, t)
    ensures Coherent(env, cwd)
  {
    hide NotLink, Render, DropLast;
  }

  lemma ParentShorter(d: Dir)
    requires d.names != []
    ensures |Render(Parent(d))| <= |Render(d)|
  {
  }

  lemma {:induction false} DropClear(env: Env, ns: seq<string>, n: nat)
    requires Clear(env, Dir(Root, ns))
    ensures Clear(env, Dir(Root, DropLast(ns, n)))
    decreases n
  {
    hide NotLink, Render;
    if n > 0 {
      DropClear(env, if ns == [] then [] else ns[..|ns| - 1], n - 1);
    }
  }

  lemma {:induction false} PlacedClear(env: Env, n: nat, ns: seq<string>, cwd: seq<string>)
    requires Coherent(env, cwd) && Clear(env, Dir(Root, cwd)) && Named(Dir(Rel(n), ns)) && Clear(env, Dir(Rel(n), ns))
    requires |Render(Dir(Root, DropLast(cwd, n) + ns))| < PATH_MAX
    ensures Clear(env, Dir(Root, DropLast(cwd, n) + ns))
    decreases |ns|
  {
    hide NotLink, Render, DropLast;
    var base := DropLast(cwd, n);
    DropClear(env, cwd, n);
    if ns == [] {
      assert base + ns == base;
    } else {
      var up := ns[..|ns| - 1];
      assert (base + ns)[..|base + ns| - 1] == base + up;
      ParentShorter(Dir(Root, base + ns));
      PlacedClear(env, n, up, cwd);
    }
  }

  /** From the root, or from a current directory that is no link itself, following links leads to a
      path on which nothing is a link. */
  lemma ResolvedClear(env: Env, here: Here, name: string)
    requires env.follow && HereOk(here) && LinkFree(env, here, name)
    requires Resolve(env, HereText(here), name).Path?
    ensures Clear(env, ResolvedDir(env, here, name))
  {
    hide Run, Render, Finish, Lead, Comps, Ends, Walk, NotLink, Resolve, Coherent, Clear, DropLast;
    ResolvePath(env, HereText(here), name);
    var st := State(name, "", 0, false, 0);
    StartMatch(st);
    RunWalks(env, st, Dir(Rel(0), []));
    ClearNone(env, StartDir(name));
    WalkClear(env, Comps(name), Ends(name), StartDir(name), false, 0);
    var at := WalkText(env, name, StartDir(name), false, 0).at;
    if "/" <= name {
      LeadRooted(name);
      WalkRooted(env, Comps(name), Ends(name), StartDir(name), false, 0);
    } else if here.Names? && at.base.Rel? {
      ResolvedShape(env, here, name);
      PlacedClear(env, at.base.ups, at.names, here.names);
    }
  }

  lemma LeadRooted(name: string)
    requires "/" <= name
    ensures name[0] == '/' && !StartDir(name).base.Rel?
  {
  }

  lemma ClearNone(env: Env, at: Dir)
    ensures at.names == [] ==> Clear(env, at)
  {
  }

  /** Resolving the result again, from anywhere, gives the result. */
  lemma ResolveTwice(env: Env, here: Here, name: string, cwd: Cwd)
    requires HereOk(here) && (cwd.At? ==> cwd.path != "")
    requires env.follow ==> LinkFree(env, here, name)
    requires Resolve(env, HereText(here), name).Path?
    ensures Resolve(env, cwd, Resolve(env, HereText(here), name).path) == Resolve(env, HereText(here), name)
  {
    hide Resolve, ResolvedDir, Coherent, Clear, Render;
    ResolvedShape(env, here, name);
    if env.follow {
      ResolvedClear(env, here, name);
    }
    StraightResolve(env, cwd, ResolvedDir(env, here, name));
  }
}
