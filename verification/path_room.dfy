// When nothing is too long: with short names and short links the buffers' limits are never met.
module PathRoom {
  import opened Limits
  import opened PathText
  import opened PathDir
  import opened PathMachine
  import opened PathWalk
  import opened PathFinal
  import opened PathProps

  /** No link, below the root or not, has contents longer than m. */
  ghost predicate ShortLinks(env: Env, m: nat) {
    forall p | env.link(p).Content? ::
      var c := env.link(p).text;
      |c| <= m && (c != "" && c[0] == '/' && env.root != "/" ==> |env.root + c| <= m)
  }

  lemma JumpShort(env: Env, p: string, m: nat)
    requires ShortLinks(env, m) && LookAt(env, p).Jump?
    ensures |LookAt(env, p).text| <= m
  {
    assert env.link(p).Content?;
  }

  /** What k more links may add. */
  function Budget(k: nat, m: nat): nat {
    if k == 0 then 0 else m + 1 + Budget(k - 1, m)
  }

  lemma {:induction false} BudgetIs(k: nat, m: nat)
    ensures Budget(k, m) == k * (m + 1)
  {
    if k > 0 {
      BudgetIs(k - 1, m);
      assert k * (m + 1) == (k - 1) * (m + 1) + (m + 1);
    }
  }

  lemma BudgetMore(k: nat, m: nat)
    requires k > 0
    ensures Budget(k, m) == m + 1 + Budget(k - 1, m)
  {
  }

  /** The length of the output once all that is on the stack has been put behind it. */
  function Size(st: State): nat {
    |st.out| + |st.text| + if st.text != "" then |Sep(st.out)| - |st.out| else 0
  }

  ghost predicate Roomy(st: State, m: nat) {
    st.cnt < SYMLOOP_MAX && Size(st) + 1 + Budget(SYMLOOP_MAX - st.cnt, m) < PATH_MAX
  }

  /** What a step adds comes out of the budget for links. */
  ghost predicate Spent(st: State, s: State, m: nat) {
    && st.cnt <= s.cnt < SYMLOOP_MAX
    && Size(s) + Budget(SYMLOOP_MAX - s.cnt, m) <= Size(st) + Budget(SYMLOOP_MAX - st.cnt, m)
  }

  lemma RoomyLoose(env: Env, st: State, m: nat)
    requires ShortLinks(env, m) && Roomy(st, m)
    ensures !Tight(env, st)
  {
    hide PieceLen, LookAt, Sep;
    BudgetMore(SYMLOOP_MAX - st.cnt, m);
    var n := PieceLen(st.text);
    PathLen(st, n);
    var path := Sep(st.out) + st.text[..n];
    if LookAt(env, path).Jump? {
      JumpShort(env, path, m);
    }
  }

  lemma PathLen(st: State, n: nat)
    requires n <= |st.text|
    ensures |Sep(st.out) + st.text[..n]| <= Size(st) + 1 - (|st.text| - n)
  {
  }

  lemma SkipShorter(t: string)
    ensures t != "" && t[0] == '/' ==> |SkipSlashes(t)| < |t|
    ensures |SkipSlashes(t)| <= |t|
  {
  }

  lemma PopShorter(o: string)
    ensures |PopComp(o)| <= |o|
  {
    hide CutToSlash;
  }

  /** Taking a component over does not make it longer. */
  lemma TakeSize(st: State, n: nat)
    requires n <= |st.text| && (n < |st.text| ==> st.text[n] == '/') && (n == 0 ==> st.text == "")
    ensures var s := Take(st, n, Sep(st.out) + st.text[..n]); Size(s) <= Size(st) && s.cnt == st.cnt
  {
    hide SkipSlashes, PopComp;
    SkipShorter(st.text[n..]);
    PopShorter(st.out);
  }

  lemma UpSize(st: State, n: nat)
    requires 0 < n <= |st.text| && (n < |st.text| ==> st.text[n] == '/')
    ensures Size(st.(text := SkipSlashes(st.text[n..]), out := Sep(st.out) + st.text[..n], nup := st.nup + 1))
         <= Size(st)
  {
    hide SkipSlashes;
    SkipShorter(st.text[n..]);
  }

  lemma FollowSize(st: State, n: nat, c: string, m: nat)
    requires n <= |st.text| && 0 < |c| <= m && st.cnt < SYMLOOP_MAX && Follow(st, st.text[n..], c).More?
    ensures var s := Follow(st, st.text[n..], c).st; Size(s) <= Size(st) + m + 1 && s.cnt == st.cnt + 1 < SYMLOOP_MAX
  {
    hide SkipSlashes;
    SkipShorter(st.text[n..]);
  }

  lemma SlashSize(st: State)
    requires st.text != "" && st.text[0] == '/'
    ensures Size(State(SkipSlashes(st.text[1..]), RenderBase(Lead(st.text)), 0, false, st.cnt)) <= Size(st)
  {
    hide SkipSlashes;
    SkipShorter(st.text[1..]);
  }

  lemma DotSize(st: State, n: nat)
    requires n <= |st.text|
    ensures Size(st.(text := SkipSlashes(st.text[n..]))) <= Size(st)
  {
    hide SkipSlashes, Sep;
    SkipShorter(st.text[n..]);
  }

  lemma ComponentRoomy(env: Env, st: State, m: nat, n: nat)
    requires ShortLinks(env, m) && Roomy(st, m) && n == PieceLen(st.text) && Component(env, st, n).More?
    requires n > 0 || st.text == ""
    ensures Roomy(Component(env, st, n).st, m) && Spent(st, Component(env, st, n).st, m)
  {
    hide PieceLen, LookAt, Sep, Take, Follow, SkipSlashes, Component, TightAt, Size;
    var x := st.text[..n];
    var look := if Asks(env, x == "..", st.check) then LookAt(env, Sep(st.out) + x) else Plain;
    BudgetMore(SYMLOOP_MAX - st.cnt, m);
    ComponentCases(env, st, n);
    if x == ".." && |st.out| <= 3 * st.nup {
      UpSize(st, n);
    } else if look.Plain? {
      TakeSize(st, n);
    } else if look.Jump? {
      JumpShort(env, Sep(st.out) + x, m);
      FollowSize(st, n, look.text, m);
    }
  }

  lemma StepRoomy(env: Env, st: State, m: nat)
    requires ShortLinks(env, m) && Roomy(st, m) && Step(env, st).More?
    ensures Roomy(Step(env, st).st, m) && Spent(st, Step(env, st).st, m)
  {
    hide PieceLen, SkipSlashes, Component, Size, Lead, RenderBase;
    var t := st.text;
    var n := PieceLen(t);
    PieceSome(t);
    if t != "" && t[0] == '/' {
      SlashSize(st);
    } else if t[..n] == "." {
      DotSize(st, n);
    } else {
      ComponentRoomy(env, st, m, n);
    }
  }

  /** With room enough the machine meets no limit. */
  lemma {:induction false} RoomyRun(env: Env, st: State, m: nat)
    requires Fits(st) && ShortLinks(env, m) && Roomy(st, m)
    ensures !MeetsLimit(env, st)
    decreases SYMLOOP_MAX - st.cnt, |st.text|, st.check
  {
    hide Step, ShortLinks, Tight, Size;
    RoomyLoose(env, st, m);
    if Step(env, st).More? {
      StepSmaller(env, st);
      StepRoomy(env, st, m);
      RoomyRun(env, Step(env, st).st, m);
    }
  }

  lemma StopSize(env: Env, st: State)
    requires Step(env, st).Halt? && Step(env, st).r.Stopped?
    ensures |Step(env, st).r.out| <= Size(st)
  {
    hide Take, Lead, PieceLen, SkipSlashes, RenderBase, LookAt, Sep;
  }

  /** When the name, the current directory and forty links fit in PATH_MAX together, the two-buffer
      resolver computes exactly what the resolution over components does. */
  lemma ResolveRoomy(env: Env, here: Here, name: string, m: nat)
    requires HereOk(here) && name != "" && ShortLinks(env, m)
    requires |name| + (if here.Names? then |HereText(here).path| else 0) + SYMLOOP_MAX * (m + 1) + 4 < PATH_MAX
    ensures Resolve(env, HereText(here), name) == ResolveComps(env, here, name)
  {
    hide Run, WalkText, Render, Finish, Lead, Budget, PlaceAnswer, ShortLinks, MeetsLimit, TooLong;
    var st := State(name, "", 0, false, 0);
    StartMatch(st);
    BudgetIs(SYMLOOP_MAX, m);
    RoomyRun(env, st, m);
    RoomyOut(env, st, m);
    RunWalks(env, st, Dir(Rel(0), []));
    var w := WalkText(env, name, StartDir(name), false, 0);
    if w.Ended? {
      FinishPlaces(w.at, here);
    }
  }

  /** The output is never longer than the name and the links followed. */
  lemma {:induction false} RoomyOut(env: Env, st: State, m: nat)
    requires Fits(st) && ShortLinks(env, m) && Roomy(st, m)
    ensures var r := Run(env, st); r.Stopped? ==> |r.out| <= Size(st) + Budget(SYMLOOP_MAX - st.cnt, m)
    decreases SYMLOOP_MAX - st.cnt, |st.text|, st.check
  {
    hide Step, ShortLinks, Size;
    if Step(env, st).More? {
      StepSmaller(env, st);
      StepRoomy(env, st, m);
      RoomyOut(env, Step(env, st).st, m);
    } else if Step(env, st).r.Stopped? {
      StopSize(env, st);
    }
  }
}
