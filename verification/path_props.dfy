// What a resolved path is: absolute, free of links, and resolved again to itself.
module PathProps {
  import opened Limits
  import opened PathText
  import opened PathDir
  import opened PathMachine
  import opened PathWalk
  import opened PathFinal

  function StartDir(name: string): Dir {
    if name != "" && name[0] == '/' then Dir(Lead(name), []) else Dir(Rel(0), [])
  }

  /** Resolution over component lists, from the root or from the current directory. */
  function ResolveComps(env: Env, here: Here, name: string): Answer {
    match WalkText(env, name, StartDir(name), false, 0)
    case Broken(e) => Error(e)
    case Ended(at) => PlaceAnswer(at, here)
  }

  /** The machine computes what the walk over components computes, exactly unless it meets a limit of its
      buffers on the way, or the answer below the current directory does not fit. */
  lemma ResolveWalks(env: Env, here: Here, name: string)
    requires HereOk(here) && name != "" && |name| < PATH_MAX
    ensures var r := Resolve(env, HereText(here), name);
            var w := WalkText(env, name, StartDir(name), false, 0);
            if MeetsLimit(env, State(name, "", 0, false, 0)) then r == Error(ENAMETOOLONG) || r == Overrun
            else if w.Ended? && TooLong(w.at, here) then r == Error(ENAMETOOLONG)
            else r == ResolveComps(env, here, name)
  {
    hide Run, WalkText, Render, Finish, Lead, MeetsLimit, TooLong;
    var st := State(name, "", 0, false, 0);
    StartMatch(st);
    RunWalks(env, st, Dir(Rel(0), []));
    var w := WalkText(env, name, StartDir(name), false, 0);
    if w.Ended? && Named(w.at) {
      FinishPlaces(w.at, here);
    }
  }

  lemma StartMatch(st: State)
    requires st == State(st.text, "", 0, false, 0)
    ensures Match(st, Dir(Rel(0), []))
  {
  }

  // ---- names only, and no links, on the way

  /** Nothing along the place's names is a link. */
  ghost predicate Clear(env: Env, at: Dir)
    decreases |at.names|
  {
    at.names == [] || (NotLink(env, Render(at)) && Clear(env, Parent(at)))
  }

  lemma ClearPush(env: Env, at: Dir, x: string)
    requires Clear(env, at) && NotLink(env, Sep(Render(at)) + x)
    ensures Clear(env, Push(at, x))
  {
    hide Render, NotLink, Sep;
    RenderPush(at, x);
  }

  lemma ClearUp(env: Env, at: Dir)
    requires Clear(env, at)
    ensures Clear(env, Up(at)) && Clear(env, Dir(at.base, []))
  {
  }

  /** Where a walk that follows links ends, no component is a link. */
  lemma {:induction false} WalkClear(env: Env, work: seq<string>, ends: bool, at: Dir, check: bool, cnt: nat)
    requires cnt < SYMLOOP_MAX && env.follow && Clear(env, at)
    ensures var w := Walk(env, work, ends, at, check, cnt); w.Ended? ==> Clear(env, w.at)
    decreases SYMLOOP_MAX - cnt, |work|, check
  {
    hide Clear, Render, LookAt, Sep, Comps, Ends, Lead, Up, Push, StartAt;
    if work != [] || check {
      var x := if work == [] then "" else work[0];
      var rest := if work == [] then [] else work[1..];
      var more := work != [] && (rest != [] || ends);
      ClearUp(env, at);
      if x == ".." && at.names == [] && at.base.Rel? {
        WalkClear(env, rest, ends, Up(at), check, cnt);
      } else {
        var look := if Asks(env, x == "..", check) then LookAt(env, Sep(Render(at)) + x) else Plain;
        if look.Plain? {
          if work == [] {
            WalkClear(env, [], ends, at, false, cnt);
          } else if x == ".." {
            WalkClear(env, rest, ends, Up(at), false, cnt);
          } else {
            ClearPush(env, at, x);
            WalkClear(env, rest, ends, Push(at, x), more, cnt);
          }
        } else if look.Jump? && cnt + 1 != SYMLOOP_MAX {
          ClearStart(env, look.text, at);
          WalkClear(env, Comps(look.text) + rest, if more then ends else Ends(look.text),
                    StartAt(look.text, at), check && look.text[0] != '/', cnt + 1);
        }
      }
    }
  }

  /** A walk that starts at a root ends below a root. */
  lemma {:induction false} WalkRooted(env: Env, work: seq<string>, ends: bool, at: Dir, check: bool, cnt: nat)
    requires cnt < SYMLOOP_MAX && !at.base.Rel?
    ensures var w := Walk(env, work, ends, at, check, cnt); w.Ended? ==> !w.at.base.Rel?
    decreases SYMLOOP_MAX - cnt, |work|, check
  {
    hide Render, LookAt, Sep, Comps, Ends, Lead;
    if work != [] || check {
      var x := if work == [] then "" else work[0];
      var rest := if work == [] then [] else work[1..];
      var more := work != [] && (rest != [] || ends);
      var look := if Asks(env, x == "..", check) then LookAt(env, Sep(Render(at)) + x) else Plain;
      if look.Plain? {
        if work == [] {
          WalkRooted(env, [], ends, at, false, cnt);
        } else if x == ".." {
          WalkRooted(env, rest, ends, Up(at), false, cnt);
        } else {
          WalkRooted(env, rest, ends, Push(at, x), more, cnt);
        }
      } else if look.Jump? && cnt + 1 != SYMLOOP_MAX {
        WalkRooted(env, Comps(look.text) + rest, if more then ends else Ends(look.text),
                   StartAt(look.text, at), check && look.text[0] != '/', cnt + 1);
      }
    }
  }

  lemma ClearStart(env: Env, c: string, at: Dir)
    requires Clear(env, at)
    ensures Clear(env, StartAt(c, at))
  {
    hide Lead;
  }

  // ---- resolving a resolved path

  function JoinNames(ns: seq<string>): string {
    if ns == [] then "" else if |ns| == 1 then ns[0] else ns[0] + "/" + JoinNames(ns[1..])
  }

  lemma JoinStart(ns: seq<string>)
    requires forall x | x in ns :: IsName(x)
    ensures JoinNames(ns) == "" <==> ns == []
    ensures ns != [] ==> JoinNames(ns)[0] != '/'
    ensures SkipSlashes(JoinNames(ns)) == JoinNames(ns)
  {
    if ns != [] {
      assert IsName(ns[0]);
    }
  }

  /** Names written behind a place spell the place below it. */
  lemma {:induction false} JoinText(b: Base, pre: seq<string>, ns: seq<string>)
    requires Named(Dir(b, pre)) && Named(Dir(b, ns)) && ns != []
    ensures Sep(Render(Dir(b, pre))) + JoinNames(ns) == Render(Dir(b, pre + ns))
    decreases |ns|
  {
    hide Render, Sep;
    var x := ns[0];
    assert IsName(x);
    RenderPush(Dir(b, pre), x);
    PushNamed(Dir(b, pre), x);
    if |ns| > 1 {
      JoinText(b, pre + [x], ns[1..]);
      assert pre + [x] + ns[1..] == pre + ns;
      RenderEnd(Dir(b, pre + [x]));
      SepName(Sep(Render(Dir(b, pre))), x, JoinNames(ns[1..]));
    } else {
      assert pre + [x] == pre + ns;
    }
  }

  lemma SepName(o: string, x: string, r: string)
    requires x != "" && x[|x| - 1] != '/'
    ensures Sep(o + x) + r == o + (x + "/" + r)
  {
  }

  lemma {:induction false} PieceOfName(x: string, r: string)
    requires IsName(x) && (r == "" || r[0] == '/')
    ensures PieceLen(x + r) == |x| && (x + r)[..|x|] == x && (x + r)[|x|..] == r
  {
    hide PieceLen;
    PieceAt(x + r, |x|);
  }

  lemma {:induction false} PieceAt(t: string, n: nat)
    requires n <= |t| && (n == |t| || t[n] == '/')
    requires forall i | 0 <= i < n :: t[i] != '/'
    ensures PieceLen(t) == n
    decreases |t|
  {
    if n > 0 {
      PieceAt(t[1..], n - 1);
    }
  }

  lemma StraightStep(env: Env, b: Base, pre: seq<string>, x: string, r: string, check: bool, cnt: nat)
    requires !b.Rel? && Named(Dir(b, pre)) && IsName(x) && (r == "" || r[0] == '/')
    requires cnt < SYMLOOP_MAX && |Render(Dir(b, pre))| < PATH_MAX
    requires env.follow ==> NotLink(env, Render(Dir(b, pre + [x])))
    requires |Render(Dir(b, pre + [x]))| + |r| < PATH_MAX
    ensures Step(env, State(x + r, Render(Dir(b, pre)), 0, check, cnt))
         == More(State(SkipSlashes(r), Render(Dir(b, pre + [x])), 0, r != "", cnt))
  {
    hide Render, PieceLen, SkipSlashes, Sep, LookAt, PopComp, Component, Take;
    var st := State(x + r, Render(Dir(b, pre)), 0, check, cnt);
    PieceOfName(x, r);
    StepIsComponent(env, st);
    RenderPush(Dir(b, pre), x);
    RenderLen(Dir(b, pre));
    SepShorter(Render(Dir(b, pre)), x);
    StraightComponent(env, st, |x|);
    TakeName(st, x, r);
  }

  lemma SepShorter(o: string, x: string)
    ensures Sep(o) != o ==> |x| < |Sep(o) + x| - |o|
    ensures |Sep(o) + x| >= |x|
  {
  }

  lemma TakeName(st: State, x: string, r: string)
    requires IsName(x) && st.text == x + r
    ensures st.text[..|x|] == x && st.text[|x|..] == r
    ensures Take(st, |x|, Sep(st.out) + x) == st.(text := SkipSlashes(r), out := Sep(st.out) + x, check := r != "")
  {
    hide SkipSlashes, Sep, PopComp;
  }

  lemma StraightComponent(env: Env, st: State, n: nat)
    requires 0 < n <= |st.text| && st.text[..n] != ".." && |st.text| < PATH_MAX
    requires var path := Sep(st.out) + st.text[..n];
             |path| < PATH_MAX && (env.follow ==> NotLink(env, path))
    ensures Component(env, st, n) == More(Take(st, n, Sep(st.out) + st.text[..n]))
  {
    hide Take, Follow;
  }

  lemma RunEnd(env: Env, st: State)
    requires Fits(st) && st.text == "" && !st.check
    ensures Run(env, st) == Stopped(st.out, st.nup)
  {
  }

  lemma RunStep(env: Env, st: State, s: State)
    requires Fits(st) && Fits(s) && Step(env, st) == More(s)
    ensures Run(env, st) == Run(env, s)
  {
    hide Step;
  }

  lemma {:induction false} ClearPrefix(env: Env, b: Base, pre: seq<string>, ns: seq<string>)
    requires Clear(env, Dir(b, pre + ns))
    ensures Clear(env, Dir(b, pre)) && (pre != [] ==> NotLink(env, Render(Dir(b, pre))))
    decreases |ns|
  {
    hide LookAt, Render;
    if ns == [] {
      assert pre + ns == pre;
    } else {
      assert (pre + ns)[..|pre + ns| - 1] == pre + ns[..|ns| - 1];
      ClearPrefix(env, b, pre, ns[..|ns| - 1]);
    }
  }

  lemma JoinHead(ns: seq<string>, r: string)
    requires ns != [] && r == if |ns| == 1 then "" else "/" + JoinNames(ns[1..])
    ensures JoinNames(ns) == ns[0] + r
    ensures r == "" || r[0] == '/'
    ensures SkipSlashes(r) == SkipSlashes(JoinNames(ns[1..]))
  {
  }

  /** What one name of a path that fits takes: all of it stays below the limit. */
  lemma StraightSizes(b: Base, pre: seq<string>, ns: seq<string>, r: string)
    requires !b.Rel? && Named(Dir(b, pre)) && Named(Dir(b, ns)) && ns != []
    requires r == if |ns| == 1 then "" else "/" + JoinNames(ns[1..])
    ensures |Render(Dir(b, pre + [ns[0]]))| + |r| == |Render(Dir(b, pre + ns))|
    ensures |Render(Dir(b, pre))| <= |Render(Dir(b, pre + ns))|
  {
    hide Render, Sep, JoinNames;
    JoinHead(ns, r);
    JoinText(b, pre, ns);
    RenderPush(Dir(b, pre), ns[0]);
  }

  /** Along names that are no links the machine goes straight to the place they spell. */
  lemma {:induction false} StraightRun(env: Env, b: Base, pre: seq<string>, ns: seq<string>, check: bool, cnt: nat)
    requires !b.Rel? && Named(Dir(b, pre)) && Named(Dir(b, ns)) && cnt < SYMLOOP_MAX
    requires env.follow ==> Clear(env, Dir(b, pre + ns))
    requires |Render(Dir(b, pre + ns))| < PATH_MAX && (ns == [] ==> !check)
    requires Fits(State(JoinNames(ns), Render(Dir(b, pre)), 0, check, cnt))
    ensures Run(env, State(JoinNames(ns), Render(Dir(b, pre)), 0, check, cnt))
         == Stopped(Render(Dir(b, pre + ns)), 0)
    decreases |ns|
  {
    hide Render, Clear, SkipSlashes, LookAt, JoinNames, Run, Step, Sep;
    var st := State(JoinNames(ns), Render(Dir(b, pre)), 0, check, cnt);
    if ns == [] {
      assert pre + ns == pre;
      JoinStart(ns);
      RunEnd(env, st);
    } else {
      var x := ns[0];
      var r := if |ns| == 1 then "" else "/" + JoinNames(ns[1..]);
      assert IsName(x);
      assert pre + [x] + ns[1..] == pre + ns;
      if env.follow {
        ClearPrefix(env, b, pre + [x], ns[1..]);
      }
      StraightSizes(b, pre, ns, r);
      JoinHead(ns, r);
      JoinStart(ns[1..]);
      StraightStep(env, b, pre, x, r, check, cnt);
      PushNamed(Dir(b, pre), x);
      RunStep(env, st, State(JoinNames(ns[1..]), Render(Dir(b, pre + [x])), 0, r != "", cnt));
      StraightRun(env, b, pre + [x], ns[1..], r != "", cnt);
    }
  }

  lemma RootSplit(b: Base, ns: seq<string>)
    requires !b.Rel? && Named(Dir(b, ns))
    ensures var p := Render(Dir(b, ns));
            && p != "" && p[0] == '/' && Lead(p) == b && SkipSlashes(p[1..]) == JoinNames(ns)
            && RenderBase(b) == Render(Dir(b, []))
  {
    hide JoinNames, Render, SkipSlashes, Sep, Lead, RenderBase;
    JoinStart(ns);
    BareRoot(b);
    var j := JoinNames(ns);
    if ns == [] {
      assert RenderBase(b) + j == RenderBase(b);
    } else {
      JoinText(b, [], ns);
      assert [] + ns == ns;
    }
    RootLead(b, j);
  }

  lemma BareRoot(b: Base)
    requires !b.Rel?
    ensures Render(Dir(b, [])) == RenderBase(b) == Sep(RenderBase(b))
  {
  }

  lemma RootLead(b: Base, j: string)
    requires !b.Rel? && SkipSlashes(j) == j && (j == "" || j[0] != '/')
    ensures var p := RenderBase(b) + j; p != "" && p[0] == '/' && Lead(p) == b && SkipSlashes(p[1..]) == j
  {
    var p := RenderBase(b) + j;
    if b.Root? {
      assert p[1..] == j;
    } else {
      assert p[1..][1..] == j;
    }
  }

  /** Resolving an absolute path of names that are no links gives that path back. */
  lemma StraightResolve(env: Env, cwd: Cwd, at: Dir)
    requires !at.base.Rel? && Named(at) && (env.follow ==> Clear(env, at))
    requires |Render(at)| < PATH_MAX && (cwd.At? ==> cwd.path != "")
    ensures Resolve(env, cwd, Render(at)) == Path(Render(at))
  {
    hide Render, Clear, SkipSlashes, JoinNames, Run, Lead, Sep;
    var p := Render(at);
    var b := at.base;
    var ns := at.names;
    RootSplit(b, ns);
    assert [] + ns == ns && Dir(b, ns) == at;
    var st := State(p, "", 0, false, 0);
    var s := State(JoinNames(ns), Render(Dir(b, [])), 0, false, 0);
    RunStep(env, st, s);
    StraightRun(env, b, [], ns, false, 0);
  }
}
