// The symlink resolver as a machine over two texts: what is left to resolve, and what is resolved.
module PathMachine {
  import opened Limits
  import opened PathText
  import opened PathDir

  datatype LinkResult = Content(text: string) | NoLink(errno: int)

  /** What the resolver meets: links, whether they are followed, whether a missing component is
      taken as it is, the chroot and errno at entry. */
  datatype Env = Env(link: string -> LinkResult, follow: bool, missingOk: bool, root: string, errno: int)

  datatype Look = Plain | Wrong(errno: int) | Jump(text: string)

  /** readlink says of the path that it is no link, or that there is nothing where that is tolerated. */
  predicate NotLink(env: Env, path: string) {
    match env.link(path)
    case NoLink(e) => e == EINVAL || (e == ENOENT && env.missingOk)
    case Content(c) => c == "" && env.errno == ENOENT && env.missingOk
  }

  /** What one readlink means: nothing to follow, an error, or contents to resolve next. Contents
      that start at the root are moved below the chroot. */
  function LookAt(env: Env, path: string): (r: Look)
    ensures r.Jump? ==> r.text != ""
    ensures r.Plain? <==> NotLink(env, path)
    ensures env.link(path).NoLink? && !NotLink(env, path) ==> r == Wrong(env.link(path).errno)
    ensures env.link(path) == Content("") && !NotLink(env, path) ==> r == Wrong(ENOENT)
    ensures env.link(path).Content? && env.link(path).text != "" ==>
              var c := env.link(path).text;
              r == Jump(if c[0] == '/' && env.root != "/" then env.root + c else c)
  {
    match env.link(path)
    case NoLink(e) => if (e == ENOENT && env.missingOk) || e == EINVAL then Plain else Wrong(e)
    case Content(c) =>
      if c == "" then
        (if env.errno == ENOENT && env.missingOk then Plain else Wrong(ENOENT))
      else if c[0] == '/' && env.root != "/" then
        Jump(env.root + c)
      else
        Jump(c)
  }

  /** The base an absolute path starts from: exactly two leading slashes are kept. */
  function Lead(t: string): (b: Base)
    requires t != "" && t[0] == '/'
    ensures !b.Rel?
  {
    if |t| > 1 && t[1] == '/' && !(|t| > 2 && t[2] == '/') then DoubleRoot else Root
  }

  /** text is the stack from p on, out the output up to q; check tells that out must be a directory. */
  datatype State = State(text: string, out: string, nup: nat, check: bool, cnt: nat)

  datatype Result = Stopped(out: string, nup: nat) | Failed(errno: int) | NoRoom

  datatype Next = More(st: State) | Halt(r: Result)

  /** Which path, if any, the current iteration asks readlink about. */
  predicate Asks(env: Env, up: bool, check: bool) {
    env.follow && (check || !up)
  }

  /** The component is not a link: take it over, or cut the last one for "..". */
  function Take(st: State, n: nat, path: string): State
    requires n <= |st.text|
  {
    var rest := st.text[n..];
    if st.text[..n] == ".." then
      st.(text := SkipSlashes(rest), out := PopComp(st.out), check := false)
    else
      st.(text := SkipSlashes(rest), out := if n > 0 then path else st.out, check := rest != "")
  }

  /** The component is a link with contents c: push them in front of the rest. */
  function Follow(st: State, rest: string, c: string): Next
    requires c != ""
  {
    if st.cnt + 1 == SYMLOOP_MAX then
      Halt(Failed(ELOOP))
    else if |c| + |rest| > PATH_MAX then
      Halt(NoRoom)
    else
      More(st.(text := c + (if c[|c| - 1] == '/' then SkipSlashes(rest) else rest), cnt := st.cnt + 1))
  }

  /** Asking about path, whose component leaves rest on the stack. */
  function Ask(env: Env, st: State, n: nat, path: string): Next
    requires n <= |st.text|
  {
    var rest := st.text[n..];
    if env.link(path).Content? && |env.link(path).text| + |rest| >= PATH_MAX then
      Halt(Failed(ENAMETOOLONG))
    else
      match LookAt(env, path)
      case Plain => More(Take(st, n, path))
      case Wrong(e) => Halt(Failed(e))
      case Jump(c) => Follow(st, rest, c)
  }

  /** A piece of n characters, not ".", as the next component. */
  function Component(env: Env, st: State, n: nat): Next
    requires n <= |st.text|
  {
    var piece := st.text[..n];
    var path := Sep(st.out) + piece;
    if Sep(st.out) != st.out && |st.text| == PATH_MAX then
      Halt(Failed(ENAMETOOLONG))
    else if |path| >= PATH_MAX then
      Halt(Failed(ENAMETOOLONG))
    else if piece == ".." && |st.out| <= 3 * st.nup then
      More(st.(text := SkipSlashes(st.text[n..]), out := path, nup := st.nup + 1))
    else if !Asks(env, piece == "..", st.check) then
      More(Take(st, n, path))
    else
      Ask(env, st, n, path)
  }

  /** One iteration of the main loop. */
  function Step(env: Env, st: State): Next {
    var t := st.text;
    var n := PieceLen(t);
    if t != "" && t[0] == '/' then
      More(State(SkipSlashes(t[1..]), RenderBase(Lead(t)), 0, false, st.cnt))
    else if n == 0 && !st.check then
      Halt(Stopped(st.out, st.nup))
    else if t[..n] == "." then
      More(st.(text := SkipSlashes(t[n..])))
    else
      Component(env, st, n)
  }

  predicate Fits(st: State) {
    |st.text| <= PATH_MAX && st.cnt < SYMLOOP_MAX && |st.out| < PATH_MAX
  }

  lemma TakeSmaller(st: State, n: nat, path: string)
    requires n <= |st.text| && |path| < PATH_MAX && Fits(st) && (n > 0 || st.text == "")
    ensures var s := Take(st, n, path);
            && Fits(s) && s.cnt == st.cnt
            && (|s.text| < |st.text| || (s.text == "" && st.text == "" && (st.check ==> !s.check)))
  {
  }

  /** Every iteration keeps the buffers' bounds, and follows one more link, or leaves less text, or
      drops the directory check. */
  lemma StepSmaller(env: Env, st: State)
    requires Fits(st) && Step(env, st).More?
    ensures var s := Step(env, st).st;
            && Fits(s) && s.cnt >= st.cnt
            && (s.cnt > st.cnt || |s.text| < |st.text| || (|s.text| == |st.text| && st.check && !s.check))
  {
    hide PieceLen, SkipSlashes, PopComp;
    var t := st.text;
    var n := PieceLen(t);
    PieceSome(t);
    if !(t != "" && t[0] == '/') && !(n == 0 && !st.check) && t[..n] != "." {
      ComponentSmaller(env, st, n);
    }
  }

  lemma PieceSome(t: string)
    ensures t != "" && t[0] != '/' ==> PieceLen(t) > 0
  {
  }

  lemma ComponentSmaller(env: Env, st: State, n: nat)
    requires n <= |st.text| && Fits(st) && (n > 0 || (st.text == "" && st.check)) && Component(env, st, n).More?
    ensures var s := Component(env, st, n).st;
            && Fits(s) && s.cnt >= st.cnt
            && (s.cnt > st.cnt || |s.text| < |st.text| || (|s.text| == |st.text| && st.check && !s.check))
  {
    hide SkipSlashes, PopComp, Sep, LookAt, Take;
    var path := Sep(st.out) + st.text[..n];
    if |path| < PATH_MAX {
      TakeSmaller(st, n, path);
    }
  }

  function Run(env: Env, st: State): Result
    requires Fits(st)
    decreases SYMLOOP_MAX - st.cnt, |st.text|, st.check
  {
    match Step(env, st)
    case Halt(r) => r
    case More(s) =>
      StepSmaller(env, st);
      Run(env, s)
  }

  // ---- the end of the resolution: the current directory in front of a relative result

  datatype Answer = Path(path: string) | Error(errno: int) | Overrun

  function CutUps(cwd: string, n: nat): (r: string)
    ensures |r| <= |cwd|
    decreases n
  {
    if n == 0 then cwd else CutUps(CutDir(cwd), n - 1)
  }

  /** The directory above: the last component of the current directory's path cut off. */
  function CutDir(cwd: string): (r: string)
    ensures r <= cwd && (cwd != "" ==> r != "")
  {
    if |cwd| <= 1 then
      cwd
    else if cwd[|cwd| - 1] == '/' then
      cwd[..|cwd| - 1]
    else
      CutDir(cwd[..|cwd| - 1])
  }

  /** The part of a relative result behind its leading "..". */
  function Below(out: string, nup: nat): (r: string)
    ensures |r| <= |out|
  {
    if 3 * nup <= |out| then out[3 * nup..] else ""
  }

  datatype Cwd = At(path: string) | Lost(errno: int)

  function Finish(out: string, nup: nat, cwd: Cwd): Answer
    requires cwd.At? ==> cwd.path != ""
  {
    if out != "" && out[0] == '/' then
      Path(out)
    else
      match cwd
      case Lost(e) => Error(e)
      case At(dir) =>
        var base := CutUps(dir, nup);
        var tail := Below(out, nup);
        var front := if tail != "" then Sep(base) else base;
        if |front| + |tail| + 1 >= PATH_MAX then Error(ENAMETOOLONG) else Path(front + tail)
  }

  /** The whole resolution of a file name. */
  function Resolve(env: Env, cwd: Cwd, name: string): Answer
    requires cwd.At? ==> cwd.path != ""
  {
    if name == "" then
      Error(ENOENT)
    else if |name| >= PATH_MAX then
      Error(ENAMETOOLONG)
    else
      match Run(env, State(name, "", 0, false, 0))
      case Failed(e) => Error(e)
      case NoRoom => Overrun
      case Stopped(out, nup) => Finish(out, nup, cwd)
  }
}
