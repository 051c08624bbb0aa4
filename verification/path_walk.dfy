// Pathname resolution over lists of components, and the machine's agreement with it.
module PathWalk {
  import opened Limits
  import opened PathText
  import opened PathDir
  import opened PathMachine

  datatype Outcome = Ended(at: Dir) | Broken(errno: int)

  /** Where the contents of a link are resolved from. */
  function StartAt(c: string, at: Dir): Dir {
    if c != "" && c[0] == '/' then Dir(Lead(c), []) else at
  }

  function Up(at: Dir): Dir {
    if at.names != [] then
      Parent(at)
    else if at.base.Rel? then
      Dir(Rel(at.base.ups + 1), [])
    else
      at
  }

  /** Resolve the components of work one after the other from at. A last component followed by a
      slash, and a component followed by "..", must be looked up as a directory: ends tells whether
      a slash follows the last component of work, check that the next lookup must be done. */
  function Walk(env: Env, work: seq<string>, ends: bool, at: Dir, check: bool, cnt: nat): Outcome
    requires cnt < SYMLOOP_MAX
    decreases SYMLOOP_MAX - cnt, |work|, check
  {
    if work == [] && !check then
      Ended(at)
    else
      var x := if work == [] then "" else work[0];
      var rest := if work == [] then [] else work[1..];
      var more := work != [] && (rest != [] || ends);
      if x == ".." && at.names == [] && at.base.Rel? then
        Walk(env, rest, ends, Up(at), check, cnt)
      else
        match (if Asks(env, x == "..", check) then LookAt(env, Sep(Render(at)) + x) else Plain)
        case Wrong(e) => Broken(e)
        case Plain =>
          if work == [] then
            Walk(env, [], ends, at, false, cnt)
          else if x == ".." then
            Walk(env, rest, ends, Up(at), false, cnt)
          else
            Walk(env, rest, ends, Push(at, x), more, cnt)
        case Jump(c) =>
          if cnt + 1 == SYMLOOP_MAX then
            Broken(ELOOP)
          else
            Walk(env, Comps(c) + rest, if more then ends else Ends(c),
                 StartAt(c, at), check && c[0] != '/', cnt + 1)
  }

  // ---- the walk over what is left on the stack

  function WalkText(env: Env, t: string, at: Dir, check: bool, cnt: nat): Outcome
    requires cnt < SYMLOOP_MAX
  {
    Walk(env, Comps(t), Ends(t), at, check, cnt)
  }

  /** With no component left it does not matter what ends says. */
  lemma EndsFree(env: Env, e1: bool, e2: bool, at: Dir, check: bool, cnt: nat)
    requires cnt < SYMLOOP_MAX
    ensures Walk(env, [], e1, at, check, cnt) == Walk(env, [], e2, at, check, cnt)
  {
    assert Walk(env, [], e1, at, false, cnt) == Ended(at) == Walk(env, [], e2, at, false, cnt);
  }

  lemma SkipWalk(env: Env, t: string, at: Dir, check: bool, cnt: nat)
    requires cnt < SYMLOOP_MAX
    ensures WalkText(env, SkipSlashes(t), at, check, cnt) == WalkText(env, t, at, check, cnt)
  {
    hide Walk, Comps, Ends, SkipSlashes;
    SkipSame(t);
    if Comps(t) == [] {
      EndsFree(env, Ends(SkipSlashes(t)), Ends(t), at, check, cnt);
    }
  }

  /** The first component is taken off the text. */
  lemma SlashWalk(env: Env, t: string, at: Dir, check: bool, cnt: nat)
    requires cnt < SYMLOOP_MAX && t != "" && t[0] == '/'
    ensures WalkText(env, SkipSlashes(t[1..]), at, check, cnt) == WalkText(env, t, at, check, cnt)
  {
    hide Walk, Comps, Ends, SkipSlashes, WalkText;
    SkipWalk(env, t, at, check, cnt);
    SlashStep(t);
  }

  lemma DotWalk(env: Env, t: string, at: Dir, check: bool, cnt: nat)
    requires cnt < SYMLOOP_MAX && t != "" && t[0] != '/' && t[..PieceLen(t)] == "."
    ensures WalkText(env, SkipSlashes(t[PieceLen(t)..]), at, check, cnt) == WalkText(env, t, at, check, cnt)
  {
    hide Walk, Comps, Ends, SkipSlashes, PieceLen;
    PieceStep(t);
    var rest := t[PieceLen(t)..];
    assert [] + Comps(rest) == Comps(rest);
    SkipWalk(env, rest, at, check, cnt);
    if Comps(t) == [] {
      EndsFree(env, Ends(rest), Ends(t), at, check, cnt);
    }
  }

  /** Link contents pushed in front of the rest of the stack. */
  function Pushed(c: string, rest: string): string
    requires c != ""
  {
    c + (if c[|c| - 1] == '/' then SkipSlashes(rest) else rest)
  }

  lemma {:induction false} EndsSlash(c: string)
    requires c != "" && c[|c| - 1] == '/'
    ensures Ends(c)
    decreases |c|
  {
    hide PieceLen, Comps, Ends;
    if Comps(c) == [] {
      EndsBare(c);
    } else if c[0] == '/' {
      SlashStep(c);
      CompsEmpty();
      EndsSlash(c[1..]);
    } else {
      PieceStep(c);
      EndsSlash(c[PieceLen(c)..]);
    }
  }

  lemma PushedComps(c: string, rest: string)
    requires c != "" && (rest == "" || rest[0] == '/')
    ensures Comps(Pushed(c, rest)) == Comps(c) + Comps(rest)
    ensures Comps(Pushed(c, rest)) != [] ==> Ends(Pushed(c, rest)) == if rest == "" then Ends(c) else Ends(rest)
  {
    hide Comps, Ends, SkipSlashes;
    var r := if c[|c| - 1] == '/' then SkipSlashes(rest) else rest;
    CompsJoin(c, r);
    SkipSame(rest);
    if Comps(c + r) != [] {
      EndsJoin(c, r);
      PushedEnds(c, rest, r);
    }
  }

  lemma PushedEnds(c: string, rest: string, r: string)
    requires c != "" && (rest == "" || rest[0] == '/')
    requires r == if c[|c| - 1] == '/' then SkipSlashes(rest) else rest
    ensures (if r == "" then Ends(c) else if Comps(r) == [] then true else Ends(r))
         == (if rest == "" then Ends(c) else Ends(rest))
  {
    hide Comps, Ends, SkipSlashes;
    SkipSame(rest);
    SkipEmpty();
    if Comps(rest) == [] {
      EndsBare(rest);
    } else {
      CompsEmpty();
    }
    if c[|c| - 1] == '/' {
      EndsSlash(c);
    }
  }

  lemma SkipEmpty()
    ensures SkipSlashes("") == ""
  {
  }

  lemma PushedLead(c: string, rest: string)
    requires c != "" && c[0] == '/'
    ensures Pushed(c, rest)[0] == '/' && Lead(Pushed(c, rest)) == Lead(c)
  {
    hide SkipSlashes;
  }

  /** One component of the text: what the walk does with it, in terms of the rest of the text. */
  lemma PieceWalk(env: Env, t: string, at: Dir, check: bool, cnt: nat)
    requires cnt < SYMLOOP_MAX && t != "" && t[0] != '/' && t[..PieceLen(t)] != "."
    ensures var n := PieceLen(t); var x := t[..n]; var rest := t[n..];
            var look := if Asks(env, x == "..", check) then LookAt(env, Sep(Render(at)) + x) else Plain;
            WalkText(env, t, at, check, cnt) ==
              if x == ".." && at.names == [] && at.base.Rel? then WalkText(env, rest, Up(at), check, cnt)
              else if look.Wrong? then Broken(look.errno)
              else if look.Plain? && x == ".." then WalkText(env, rest, Up(at), false, cnt)
              else if look.Plain? then WalkText(env, rest, Push(at, x), rest != "", cnt)
              else if cnt + 1 == SYMLOOP_MAX then Broken(ELOOP)
              else WalkText(env, Pushed(look.text, rest), StartAt(look.text, at),
                            check && look.text[0] != '/', cnt + 1)
  {
    hide Walk, Comps, Ends, SkipSlashes, PieceLen, Render, Sep, LookAt, Pushed;
    PieceStep(t);
    var n := PieceLen(t);
    var x := t[..n];
    var rest := t[n..];
    WalkStep(env, x, Comps(rest), Ends(rest), at, check, cnt);
    var look := if Asks(env, x == "..", check) then LookAt(env, Sep(Render(at)) + x) else Plain;
    if look.Jump? && cnt + 1 != SYMLOOP_MAX {
      PushedWalk(env, look.text, rest, Ends(rest), StartAt(look.text, at), check && look.text[0] != '/', cnt + 1);
    }
  }

  lemma PushedWalk(env: Env, c: string, rest: string, ends: bool, at: Dir, check: bool, cnt: nat)
    requires cnt < SYMLOOP_MAX && c != "" && (rest == "" || rest[0] == '/') && (rest != "" ==> ends == Ends(rest))
    ensures WalkText(env, Pushed(c, rest), at, check, cnt)
         == Walk(env, Comps(c) + Comps(rest), if rest != "" then ends else Ends(c), at, check, cnt)
  {
    hide Walk, Comps, Ends, Pushed;
    PushedComps(c, rest);
    if Comps(c) + Comps(rest) == [] {
      EndsFree(env, Ends(Pushed(c, rest)), if rest != "" then ends else Ends(c), at, check, cnt);
    }
  }

  lemma WalkStep(env: Env, x: string, rest: seq<string>, ends: bool, at: Dir, check: bool, cnt: nat)
    requires cnt < SYMLOOP_MAX
    ensures var more := rest != [] || ends;
            var look := if Asks(env, x == "..", check) then LookAt(env, Sep(Render(at)) + x) else Plain;
            Walk(env, [x] + rest, ends, at, check, cnt) ==
              if x == ".." && at.names == [] && at.base.Rel? then Walk(env, rest, ends, Up(at), check, cnt)
              else if look.Wrong? then Broken(look.errno)
              else if look.Plain? && x == ".." then Walk(env, rest, ends, Up(at), false, cnt)
              else if look.Plain? then Walk(env, rest, ends, Push(at, x), more, cnt)
              else if cnt + 1 == SYMLOOP_MAX then Broken(ELOOP)
              else Walk(env, Comps(look.text) + rest, if more then ends else Ends(look.text),
                        StartAt(look.text, at), check && look.text[0] != '/', cnt + 1)
  {
    hide Comps, Ends, Render, Sep, LookAt, StartAt, Up;
    assert ([x] + rest)[1..] == rest;
  }

  /** The check that a path with a slash at its end is a directory. */
  lemma ProbeWalk(env: Env, at: Dir, cnt: nat)
    requires cnt < SYMLOOP_MAX
    ensures var look := if env.follow then LookAt(env, Sep(Render(at))) else Plain;
            WalkText(env, "", at, true, cnt) ==
              if look.Wrong? then Broken(look.errno)
              else if look.Plain? then Ended(at)
              else if cnt + 1 == SYMLOOP_MAX then Broken(ELOOP)
              else WalkText(env, look.text, StartAt(look.text, at), look.text[0] != '/', cnt + 1)
  {
    hide Comps, Ends, Render, Sep, LookAt, StartAt, Up;
    CompsEmpty();
    assert Sep(Render(at)) + "" == Sep(Render(at));
    assert Walk(env, [], false, at, false, cnt) == Ended(at);
    ProbeStep(env, at, cnt);
  }

  lemma ProbeStep(env: Env, at: Dir, cnt: nat)
    requires cnt < SYMLOOP_MAX
    ensures var look := if env.follow then LookAt(env, Sep(Render(at)) + "") else Plain;
            Walk(env, [], false, at, true, cnt) ==
              if look.Wrong? then Broken(look.errno)
              else if look.Plain? then Walk(env, [], false, at, false, cnt)
              else if cnt + 1 == SYMLOOP_MAX then Broken(ELOOP)
              else Walk(env, Comps(look.text) + [], Ends(look.text), StartAt(look.text, at), look.text[0] != '/',
                        cnt + 1)
    ensures forall c :: Comps(c) + [] == Comps(c)
  {
    hide Comps, Ends, Render, Sep, LookAt, StartAt, Up;
  }

  // ---- the machine does what the walk does

  /** The machine's output spells a place, and its counter the leading "..". */
  ghost predicate Match(st: State, at: Dir) {
    && Named(at) && st.out == Render(at) && st.nup == (if at.base.Rel? then at.base.ups else 0)
    && (st.check ==> at.names != [])
  }

  predicate Loose(t: string) {
    t == "" || t[0] != '/'
  }

  ghost predicate Same(r: Result, w: Outcome) {
    match w
    case Broken(e) => r == Failed(e)
    case Ended(at) => Named(at) && r == Stopped(Render(at), if at.base.Rel? then at.base.ups else 0)
  }

  /** The place after one iteration. */
  ghost function Moved(env: Env, st: State, at: Dir): Dir {
    var t := st.text;
    var n := PieceLen(t);
    var x := t[..n];
    if t != "" && t[0] == '/' then
      Dir(Lead(t), [])
    else if t == "" || x == "." then
      at
    else if x == ".." && at.names == [] && at.base.Rel? then
      Up(at)
    else if Asks(env, x == "..", st.check) && !LookAt(env, Sep(st.out) + x).Plain? then
      at
    else if x == ".." then
      Up(at)
    else
      Push(at, x)
  }

  /** The walk over what is left on the stack; a root in front restarts it. */
  function StackWalk(env: Env, t: string, at: Dir, check: bool, cnt: nat): Outcome
    requires cnt < SYMLOOP_MAX
  {
    if t != "" && t[0] == '/' then WalkText(env, t, Dir(Lead(t), []), false, cnt) else WalkText(env, t, at, check, cnt)
  }

  /** Giving up for lack of room. */
  predicate Cramped(r: Result) {
    r == Failed(ENAMETOOLONG) || r == NoRoom
  }

  /** A component of n characters meets one of the buffers' limits: there is no room for a slash in
      front of it, or for the path, or for the contents of the link it is. */
  predicate TightAt(env: Env, st: State, n: nat)
    requires n <= |st.text|
  {
    var up := st.text[..n] == "..";
    var path := Sep(st.out) + st.text[..n];
    || (Sep(st.out) != st.out && |st.text| == PATH_MAX)
    || |path| >= PATH_MAX
    || (!(up && |st.out| <= 3 * st.nup) && Asks(env, up, st.check) && TightLink(env, st, path, st.text[n..]))
  }

  /** A link whose contents leave no room for the rest of the stack. */
  predicate TightLink(env: Env, st: State, path: string, rest: string) {
    || (env.link(path).Content? && |env.link(path).text| + |rest| >= PATH_MAX)
    || (LookAt(env, path).Jump? && st.cnt + 1 != SYMLOOP_MAX && |LookAt(env, path).text| + |rest| > PATH_MAX)
  }

  predicate Tight(env: Env, st: State) {
    var n := PieceLen(st.text);
    Loose(st.text) && (n > 0 || st.check) && st.text[..n] != "." && TightAt(env, st, n)
  }

  ghost predicate StepOk(env: Env, st: State, at: Dir)
    requires Fits(st)
  {
    var w := StackWalk(env, st.text, at, st.check, st.cnt);
    match Step(env, st)
    case Halt(r) => (Tight(env, st) && Cramped(r)) || Same(r, w)
    case More(s) => s.cnt < SYMLOOP_MAX && Match(s, Moved(env, st, at))
                    && StackWalk(env, s.text, Moved(env, st, at), s.check, s.cnt) == w
  }

  lemma StackLoose(env: Env, t: string, at: Dir, check: bool, cnt: nat)
    requires cnt < SYMLOOP_MAX
    ensures StackWalk(env, SkipSlashes(t), at, check, cnt) == WalkText(env, t, at, check, cnt)
  {
    hide WalkText, SkipSlashes;
    SkipWalk(env, t, at, check, cnt);
  }

  lemma StackPushed(env: Env, c: string, rest: string, at: Dir, check: bool, cnt: nat)
    requires cnt < SYMLOOP_MAX && c != ""
    ensures StackWalk(env, Pushed(c, rest), at, check, cnt)
         == WalkText(env, Pushed(c, rest), StartAt(c, at), check && c[0] != '/', cnt)
  {
    hide WalkText, SkipSlashes, Lead;
    if c[0] == '/' {
      PushedLead(c, rest);
    }
  }

  lemma StepSlash(env: Env, st: State, at: Dir)
    requires Fits(st) && st.text != "" && st.text[0] == '/'
    ensures StepOk(env, st, at)
  {
    hide WalkText, SkipSlashes, Lead, PieceLen, StackWalk;
    var t := st.text;
    var d := Dir(Lead(t), []);
    SlashWalk(env, t, d, false, st.cnt);
    StackLoose(env, t[1..], d, false, st.cnt);
    SkipWalk(env, t[1..], d, false, st.cnt);
    StackRoot(env, t, at, st.check, st.cnt);
  }

  lemma StackRoot(env: Env, t: string, at: Dir, check: bool, cnt: nat)
    requires cnt < SYMLOOP_MAX
    ensures t != "" && t[0] == '/' ==>
            StackWalk(env, t, at, check, cnt) == WalkText(env, t, Dir(Lead(t), []), false, cnt)
    ensures Loose(t) ==> StackWalk(env, t, at, check, cnt) == WalkText(env, t, at, check, cnt)
  {
    hide WalkText;
  }

  lemma StepDot(env: Env, st: State, at: Dir)
    requires Fits(st) && Match(st, at) && st.text != "" && st.text[0] != '/' && st.text[..PieceLen(st.text)] == "."
    ensures StepOk(env, st, at)
  {
    hide WalkText, SkipSlashes, Lead, PieceLen, StackWalk, Render;
    var t := st.text;
    PieceSome(t);
    DotWalk(env, t, at, st.check, st.cnt);
    StackLoose(env, t[PieceLen(t)..], at, st.check, st.cnt);
    SkipWalk(env, t[PieceLen(t)..], at, st.check, st.cnt);
    StackRoot(env, t, at, st.check, st.cnt);
  }

  lemma StepEnd(env: Env, st: State, at: Dir)
    requires Fits(st) && Match(st, at) && st.text == "" && !st.check
    ensures StepOk(env, st, at)
  {
    hide SkipSlashes, Lead, Render;
    CompsEmpty();
  }

  /** Taking a component over moves to the place the walk moves to. */
  lemma TakeMatch(st: State, at: Dir, n: nat)
    requires Match(st, at) && 0 < n <= |st.text| && IsComp(st.text[..n])
    requires !(st.text[..n] == ".." && at.names == [] && at.base.Rel?)
    ensures var x := st.text[..n];
            var s := Take(st, n, Sep(st.out) + x);
            Match(s, if x == ".." then Up(at) else Push(at, x))
  {
    hide SkipSlashes, Render, PopComp, Sep;
    var x := st.text[..n];
    if x == ".." {
      RenderPop(at);
    } else {
      RenderPush(at, x);
      PushNamed(at, x);
    }
  }

  lemma PushNamed(at: Dir, x: string)
    requires Named(at) && IsName(x)
    ensures Named(Push(at, x))
  {
  }

  lemma UpMatch(st: State, at: Dir, text: string)
    requires Match(st, at) && at.names == [] && at.base.Rel?
    ensures Match(st.(text := text, out := Sep(st.out) + "..", nup := st.nup + 1), Up(at))
  {
    hide Sep, Ups;
    RenderUp(at);
  }

  lemma PieceIsComp(t: string)
    requires t != "" && t[0] != '/' && t[..PieceLen(t)] != "."
    ensures PieceLen(t) > 0 && IsComp(t[..PieceLen(t)])
  {
  }

  lemma UpTest(st: State, at: Dir)
    requires Match(st, at)
    ensures |st.out| <= 3 * st.nup <==> at.names == [] && at.base.Rel?
  {
    hide Render;
    RenderLen(at);
  }

  /** The ways one component can go. */
  lemma ComponentCases(env: Env, st: State, n: nat)
    requires n <= |st.text|
    ensures var x := st.text[..n]; var rest := st.text[n..]; var path := Sep(st.out) + x;
            var look := if Asks(env, x == "..", st.check) then LookAt(env, path) else Plain;
            var next := Component(env, st, n);
            || (TightAt(env, st, n) && next == Halt(Failed(ENAMETOOLONG)))
            || (if x == ".." && |st.out| <= 3 * st.nup
                then next == More(st.(text := SkipSlashes(rest), out := path, nup := st.nup + 1))
                else match look
                     case Wrong(e) => next == Halt(Failed(e))
                     case Plain => next == More(Take(st, n, path))
                     case Jump(c) => next == Follow(st, rest, c))
  {
    hide SkipSlashes, Sep, LookAt, Take, Follow;
  }

  lemma TakeText(st: State, n: nat, path: string)
    requires n <= |st.text|
    ensures var s := Take(st, n, path);
            && s.text == SkipSlashes(st.text[n..]) && s.cnt == st.cnt
            && s.check == (st.text[..n] != ".." && st.text[n..] != "")
  {
    hide SkipSlashes, PopComp;
  }

  lemma TightJump(env: Env, st: State)
    requires var n := PieceLen(st.text); var x := st.text[..n];
             && Loose(st.text) && (n > 0 || st.check) && x != "." && Asks(env, x == "..", st.check)
             && LookAt(env, Sep(st.out) + x).Jump? && |LookAt(env, Sep(st.out) + x).text| + |st.text[n..]| > PATH_MAX
             && st.cnt + 1 != SYMLOOP_MAX && !(x == ".." && |st.out| <= 3 * st.nup)
    ensures Tight(env, st)
  {
    hide PieceLen, LookAt, Sep;
  }

  lemma FollowCases(st: State, rest: string, c: string)
    requires c != ""
    ensures Follow(st, rest, c) == if st.cnt + 1 == SYMLOOP_MAX then Halt(Failed(ELOOP))
                                   else if |c| + |rest| > PATH_MAX then Halt(NoRoom)
                                   else More(st.(text := Pushed(c, rest), cnt := st.cnt + 1))
  {
    hide SkipSlashes;
  }

  lemma StepIsComponent(env: Env, st: State)
    requires st.text != "" && st.text[0] != '/' && st.text[..PieceLen(st.text)] != "."
    ensures Step(env, st) == Component(env, st, PieceLen(st.text))
  {
    hide Component;
    PieceSome(st.text);
  }

  lemma MovedPiece(env: Env, st: State, at: Dir)
    requires st.text != "" && st.text[0] != '/' && st.text[..PieceLen(st.text)] != "."
    ensures var x := st.text[..PieceLen(st.text)];
            Moved(env, st, at) ==
              if x == ".." && at.names == [] && at.base.Rel? then Up(at)
              else if Asks(env, x == "..", st.check) && !LookAt(env, Sep(st.out) + x).Plain? then at
              else if x == ".." then Up(at)
              else Push(at, x)
  {
    hide LookAt, Sep, PieceLen, Up, Push;
  }

  lemma StepPiece(env: Env, st: State, at: Dir)
    requires Fits(st) && Match(st, at) && st.text != "" && st.text[0] != '/' && st.text[..PieceLen(st.text)] != "."
    ensures StepOk(env, st, at)
  {
    hide WalkText, SkipSlashes, Lead, PieceLen, StackWalk, Render, Sep, LookAt, Take, Pushed, Up, Push, StartAt,
         IsComp, PopComp, Step, Moved, Component, Follow, Match, TightAt;
    var t := st.text;
    var n := PieceLen(t);
    PieceIsComp(t);
    MatchOut(st, at);
    StepIsComponent(env, st);
    PieceWalk(env, t, at, st.check, st.cnt);
    StackRoot(env, t, at, st.check, st.cnt);
    UpTest(st, at);
    ComponentCases(env, st, n);
    MovedPiece(env, st, at);
    if t[..n] == ".." && at.names == [] && at.base.Rel? {
      UpMatch(st, at, SkipSlashes(t[n..]));
      StackLoose(env, t[n..], Up(at), st.check, st.cnt);
    } else {
      var look := if Asks(env, t[..n] == "..", st.check) then LookAt(env, Sep(st.out) + t[..n]) else Plain;
      if look.Plain? {
        StepTaken(env, st, at, n);
      } else if look.Jump? {
        StepFollowed(env, st, at, t[n..], look.text);
        if |look.text| + |t[n..]| > PATH_MAX && st.cnt + 1 != SYMLOOP_MAX {
          TightJump(env, st);
        }
      }
    }
  }

  lemma MatchOut(st: State, at: Dir)
    requires Match(st, at)
    ensures st.out == Render(at)
  {
  }

  lemma StepTaken(env: Env, st: State, at: Dir, n: nat)
    requires Fits(st) && Match(st, at) && 0 < n <= |st.text| && IsComp(st.text[..n])
    requires !(st.text[..n] == ".." && at.names == [] && at.base.Rel?)
    ensures var x := st.text[..n]; var rest := st.text[n..];
            var s := Take(st, n, Sep(st.out) + x);
            var d := if x == ".." then Up(at) else Push(at, x);
            && Match(s, d) && s.cnt == st.cnt
            && StackWalk(env, s.text, d, s.check, s.cnt) == WalkText(env, rest, d, x != ".." && rest != "", st.cnt)
  {
    hide WalkText, SkipSlashes, StackWalk, Render, Sep, Take, Up, Push, IsComp;
    var x := st.text[..n];
    var rest := st.text[n..];
    TakeMatch(st, at, n);
    TakeText(st, n, Sep(st.out) + x);
    StackLoose(env, rest, if x == ".." then Up(at) else Push(at, x), x != ".." && rest != "", st.cnt);
  }

  lemma StepFollowed(env: Env, st: State, at: Dir, rest: string, c: string)
    requires Fits(st) && Match(st, at) && c != ""
    ensures match Follow(st, rest, c)
            case Halt(r) => if st.cnt + 1 == SYMLOOP_MAX then r == Failed(ELOOP)
                            else r == NoRoom && |c| + |rest| > PATH_MAX
            case More(s) => st.cnt + 1 < SYMLOOP_MAX && s.cnt == st.cnt + 1 && Match(s, at)
                            && StackWalk(env, s.text, at, s.check, s.cnt)
                               == WalkText(env, Pushed(c, rest), StartAt(c, at), st.check && c[0] != '/', s.cnt)
  {
    hide WalkText, SkipSlashes, StackWalk, Render, Pushed, StartAt, Follow;
    FollowCases(st, rest, c);
    if st.cnt + 1 < SYMLOOP_MAX {
      StackPushed(env, c, rest, at, st.check, st.cnt + 1);
    }
  }

  /** The text is used up, but what is resolved must still be looked up as a directory. */
  lemma StepProbe(env: Env, st: State, at: Dir)
    requires Fits(st) && Match(st, at) && st.text == "" && st.check
    ensures StepOk(env, st, at)
  {
    hide WalkText, SkipSlashes, Lead, StackWalk, Render, Sep, LookAt, Pushed, StartAt, PopComp, Follow, Component;
    var path := Sep(st.out) + "";
    assert path == Sep(st.out) && st.text[..0] == "" && st.text[0..] == "";
    assert PieceLen("") == 0;
    ComponentCases(env, st, 0);
    TakeText(st, 0, path);
    ProbeWalk(env, at, st.cnt);
    StackRoot(env, "", at, true, st.cnt);
    StackLoose(env, "", at, false, st.cnt);
    EndedText(env, at, st.cnt);
    RenderLen(at);
    var look := if env.follow then LookAt(env, path) else Plain;
    if look.Jump? {
      StepFollowed(env, st, at, "", look.text);
      if |look.text| > PATH_MAX && st.cnt + 1 != SYMLOOP_MAX {
        TightJump(env, st);
      }
      assert Pushed(look.text, "") == look.text by {
        PushedBare(look.text);
      }
    }
  }

  lemma PushedBare(c: string)
    requires c != ""
    ensures Pushed(c, "") == c
  {
    assert c + "" == c;
  }

  lemma EndedText(env: Env, at: Dir, cnt: nat)
    requires cnt < SYMLOOP_MAX
    ensures WalkText(env, "", at, false, cnt) == Ended(at)
  {
    CompsEmpty();
  }

  /** One iteration of the machine does not change what the walk comes to. */
  lemma StepWalks(env: Env, st: State, at: Dir)
    requires Fits(st) && Match(st, at)
    ensures StepOk(env, st, at)
  {
    hide StepOk, Match, PieceLen;
    if st.text != "" && st.text[0] == '/' {
      StepSlash(env, st, at);
    } else if st.text == "" {
      if st.check {
        StepProbe(env, st, at);
      } else {
        StepEnd(env, st, at);
      }
    } else if st.text[..PieceLen(st.text)] == "." {
      StepDot(env, st, at);
    } else {
      StepPiece(env, st, at);
    }
  }

  /** In a tight state the machine gives up. */
  lemma TightHalts(env: Env, st: State)
    requires Tight(env, st)
    ensures Step(env, st).Halt? && Cramped(Step(env, st).r)
  {
    hide Sep, LookAt, Take, PieceLen;
  }

  /** On its way the machine meets a limit of its buffers. */
  predicate MeetsLimit(env: Env, st: State)
    requires Fits(st)
    decreases SYMLOOP_MAX - st.cnt, |st.text|, st.check
  {
    Tight(env, st) || (Step(env, st).More? && (StepSmaller(env, st); MeetsLimit(env, Step(env, st).st)))
  }

  /** The machine gives up for lack of room if it meets a limit; else it comes to what the walk comes to. */
  lemma {:induction false} RunWalks(env: Env, st: State, at: Dir)
    requires Fits(st) && Match(st, at)
    ensures if MeetsLimit(env, st) then Cramped(Run(env, st))
            else Same(Run(env, st), StackWalk(env, st.text, at, st.check, st.cnt))
    decreases SYMLOOP_MAX - st.cnt, |st.text|, st.check
  {
    hide StackWalk, Match, Step, Moved, Tight;
    StepWalks(env, st, at);
    if Tight(env, st) {
      TightHalts(env, st);
    } else if Step(env, st).More? {
      StepSmaller(env, st);
      RunWalks(env, Step(env, st).st, Moved(env, st, at));
    }
  }
}
