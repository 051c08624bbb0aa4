// The resolution of a path given to an intercepted call: root in front, sanitized, links followed.
module PathResolution {
  import opened Limits
  import opened PathText
  import opened PathDir
  import opened PathMachine
  import opened PathFinal
  import opened PathProps
  import opened PathTheorems
  import opened PathChroot

  // ---- __path_sanitize

  function StripDots(t: string): string {
    if |t| > 3 && t[0] == '.' && t[1] == '/' && t[2] != '/' then StripDots(t[2..]) else t
  }

  function StripTrailingDots(t: string): string {
    if |t| > 2 && t[|t| - 2] == '/' && t[|t| - 1] == '.' then StripTrailingDots(t[..|t| - 2]) else t
  }

  function StripTrailingSlashes(t: string): string {
    if |t| > 1 && t[|t| - 1] == '/' then StripTrailingSlashes(t[..|t| - 1]) else t
  }

  function Sanitize(t: string): string {
    StripTrailingSlashes(StripTrailingDots(StripDots(t)))
  }

  lemma {:induction false} DotsKeep(t: string)
    ensures var r := StripDots(t);
            Comps(r) == Comps(t) && (r == "" <==> t == "") && (t != "" ==> (r[0] == '/' <==> t[0] == '/')) && |r| <= |t|
    decreases |t|
  {
    hide Comps, Ends, PieceLen, StripDots;
    DotsStep(t);
    if |t| > 3 && t[0] == '.' && t[1] == '/' && t[2] != '/' {
      DotsKeep(t[2..]);
      DotPiece(t);
      PieceStep(t);
      SlashStep(t[1..]);
      assert t[1..][1..] == t[2..] && t[..1] == ".";
      assert [] + Comps(t[1..]) == Comps(t[1..]);
    }
  }

  lemma DotsStep(t: string)
    ensures StripDots(t) == if |t| > 3 && t[0] == '.' && t[1] == '/' && t[2] != '/' then StripDots(t[2..]) else t
  {
  }

  lemma DotPiece(t: string)
    requires |t| > 1 && t[0] == '.' && t[1] == '/'
    ensures PieceLen(t) == 1
  {
    assert PieceLen(t[1..]) == 0;
  }

  lemma DotComps()
    ensures Comps("/.") == [] && Comps("/") == []
  {
    assert PieceLen(".") == 1;
    assert Comps(".") == [];
  }

  lemma {:induction false} TrailingDotsKeep(t: string)
    ensures var r := StripTrailingDots(t);
            Comps(r) == Comps(t) && (r == "" <==> t == "") && r <= t
    decreases |t|
  {
    hide Comps, Ends;
    if |t| > 2 && t[|t| - 2] == '/' && t[|t| - 1] == '.' {
      var r := t[..|t| - 2];
      TrailingDotsKeep(r);
      assert t == r + "/.";
      CompsJoin(r, "/.");
      DotComps();
      assert Comps(r) + [] == Comps(r);
    }
  }

  lemma {:induction false} TrailingSlashesKeep(t: string)
    ensures var r := StripTrailingSlashes(t);
            Comps(r) == Comps(t) && (r == "" <==> t == "") && r <= t
    decreases |t|
  {
    hide Comps, Ends;
    if |t| > 1 && t[|t| - 1] == '/' {
      var r := t[..|t| - 1];
      TrailingSlashesKeep(r);
      assert t == r + "/";
      CompsJoin(r, "/");
      DotComps();
      assert Comps(r) + [] == Comps(r);
    }
  }

  /** Sanitizing drops no component and adds none, and an absolute path stays absolute. */
  lemma SanitizeKeeps(t: string)
    ensures Comps(Sanitize(t)) == Comps(t)
    ensures t != "" ==> Sanitize(t) != "" && (Sanitize(t)[0] == '/' <==> t[0] == '/')
    ensures |Sanitize(t)| <= |t|
  {
    hide Comps, StripDots, StripTrailingDots, StripTrailingSlashes;
    DotsKeep(t);
    TrailingDotsKeep(StripDots(t));
    TrailingSlashesKeep(StripTrailingDots(StripDots(t)));
  }

  /** t without its first i characters, pairs "./", and without what stands from j on: slashes up to k, and
      pairs "/." from there on. */
  predicate Shaved(t: string, r: string, i: nat, j: nat, k: nat) {
    && i <= j <= k <= |t| && r == t[i..j] && i % 2 == 0 && (|t| - k) % 2 == 0
    && (forall x | 0 <= x < i :: t[x] == if x % 2 == 0 then '.' else '/')
    && (forall x | j <= x < k :: t[x] == '/')
    && (forall x | k <= x < |t| :: t[x] == if (x - k) % 2 == 0 then '/' else '.')
    && (j == k ==> !(|r| > 2 && r[|r| - 2] == '/' && r[|r| - 1] == '.'))
  }

  /** What sanitizing takes off, and that it leaves none of it on: no "./" in front unless a slash or all but
      nothing follows, no slash at the end unless it is all there is, and a "/." at the end only where slashes
      stood behind it. */
  lemma SanitizeShaves(t: string)
    ensures exists i: nat, j: nat, k: nat :: Shaved(t, Sanitize(t), i, j, k)
    ensures var r := Sanitize(t);
            !(|r| > 3 && r[0] == '.' && r[1] == '/' && r[2] != '/') && !(|r| > 1 && r[|r| - 1] == '/')
  {
    hide StripDots, StripTrailingDots, StripTrailingSlashes, Shaved;
    var u := StripDots(t);
    var v := StripTrailingDots(u);
    DotsShave(t);
    TrailingDotsShave(u);
    TrailingSlashesShave(v);
    ShavedParts(t, u, v, Sanitize(t));
    assert Sanitize(t) == StripTrailingSlashes(v);
  }

  lemma ShavedParts(t: string, u: string, v: string, r: string)
    requires |u| <= |t| && t[|t| - |u|..] == u && (|t| - |u|) % 2 == 0 && v <= u && (|u| - |v|) % 2 == 0 && r <= v
    requires forall x | 0 <= x < |t| - |u| :: t[x] == if x % 2 == 0 then '.' else '/'
    requires forall x | |v| <= x < |u| :: u[x] == if (x - |v|) % 2 == 0 then '/' else '.'
    requires forall x | |r| <= x < |v| :: v[x] == '/'
    requires !(|v| > 2 && v[|v| - 2] == '/' && v[|v| - 1] == '.')
    ensures Shaved(t, r, |t| - |u|, |t| - |u| + |r|, |t| - |u| + |v|)
  {
    var i, j, k := |t| - |u|, |t| - |u| + |r|, |t| - |u| + |v|;
    forall x | k <= x < |t|
      ensures t[x] == if (x - k) % 2 == 0 then '/' else '.'
    {
      assert t[x] == u[x - i];
    }
    forall x | j <= x < k
      ensures t[x] == '/'
    {
      assert t[x] == u[x - i] == v[x - i];
    }
    assert t[i..j] == r;
  }

  lemma {:induction false} DotsShave(t: string)
    ensures var u := StripDots(t);
            && |u| <= |t| && t[|t| - |u|..] == u && (|t| - |u|) % 2 == 0
            && (forall x | 0 <= x < |t| - |u| :: t[x] == if x % 2 == 0 then '.' else '/')
            && !(|u| > 3 && u[0] == '.' && u[1] == '/' && u[2] != '/')
    decreases |t|
  {
    if |t| > 3 && t[0] == '.' && t[1] == '/' && t[2] != '/' {
      DotsShave(t[2..]);
      var u := StripDots(t);
      forall x | 2 <= x < |t| - |u|
        ensures t[x] == if x % 2 == 0 then '.' else '/'
      {
        assert t[x] == t[2..][x - 2];
      }
    }
  }

  lemma {:induction false} TrailingDotsShave(t: string)
    ensures var v := StripTrailingDots(t);
            && v <= t && (|t| - |v|) % 2 == 0
            && (forall x | |v| <= x < |t| :: t[x] == if (x - |v|) % 2 == 0 then '/' else '.')
            && !(|v| > 2 && v[|v| - 2] == '/' && v[|v| - 1] == '.')
    decreases |t|
  {
    if |t| > 2 && t[|t| - 2] == '/' && t[|t| - 1] == '.' {
      TrailingDotsShave(t[..|t| - 2]);
    }
  }

  lemma {:induction false} TrailingSlashesShave(t: string)
    ensures var r := StripTrailingSlashes(t);
            && r <= t && (forall x | |r| <= x < |t| :: t[x] == '/') && !(|r| > 1 && r[|r| - 1] == '/')
    decreases |t|
  {
    if |t| > 1 && t[|t| - 1] == '/' {
      TrailingSlashesShave(t[..|t| - 1]);
    }
  }

  /** Sanitizing leaves an absolute path's front, up to its last name, in place. */
  lemma {:induction false} SanitizeFront(root: string, t: string)
    requires root <= t && |root| > 1 && root[0] == '/' && root[|root| - 1] != '/'
    requires root[|root| - 1] == '.' ==> root[|root| - 2] != '/'
    ensures root <= Sanitize(t)
  {
    DotsFront(root, t);
    TrailingDotsFront(root, t);
    TrailingSlashesFront(root, StripTrailingDots(t));
  }

  lemma DotsFront(root: string, t: string)
    requires root <= t && |root| > 1 && root[0] == '/'
    ensures StripDots(t) == t
  {
  }

  lemma {:induction false} TrailingDotsFront(root: string, t: string)
    requires root <= t && |root| > 1 && (root[|root| - 1] == '.' ==> root[|root| - 2] != '/') && root[|root| - 1] != '/'
    ensures root <= StripTrailingDots(t)
    decreases |t|
  {
    if |t| > 2 && t[|t| - 2] == '/' && t[|t| - 1] == '.' {
      assert |root| <= |t| - 2;
      TrailingDotsFront(root, t[..|t| - 2]);
    }
  }

  lemma {:induction false} TrailingSlashesFront(root: string, t: string)
    requires root <= t && |root| > 1 && root[|root| - 1] != '/'
    ensures root <= StripTrailingSlashes(t)
    decreases |t|
  {
    if |t| > 1 && t[|t| - 1] == '/' {
      TrailingSlashesFront(root, t[..|t| - 1]);
    }
  }

  // ---- path_resolution2

  /** The directory descriptor: none, its path, or the error of asking for it. */
  datatype DirFd = AtCwd | FdPath(path: string) | FdError(errno: int)

  datatype Flags = Flags(magicLinks: bool, mayIgnore: bool, walkAlong: bool)

  datatype Buf = Text(text: string) | Fail(errno: int)

  function RootText(env: Env): string {
    if env.root == "/" then "" else env.root
  }

  /** The path with the directory it starts from in front. */
  function Prefixed(env: Env, fd: DirFd, path: string): Buf {
    var root := RootText(env);
    if path != "" && path[0] == '/' then
      var rest := if root != "" && root <= path then path[|root|..] else path;
      if |root + rest| < PATH_MAX then Text(root + rest) else Fail(ENAMETOOLONG)
    else
      match fd
      case AtCwd => Text(path)
      case FdError(e) => Fail(e)
      case FdPath(dir) => if |dir + "/" + path| < PATH_MAX then Text(dir + "/" + path) else Fail(ENAMETOOLONG)
  }

  /** The text after a resolution that may have failed, which is not an error here. */
  function OrKeep(r: Answer, text: string): string {
    if r.Path? then r.path else text
  }

  /** The path without the root directory. */
  function StripRoot(env: Env, text: string): string {
    if env.root == "/" || !(env.root <= text) then
      text
    else if |text| > |env.root| then
      text[|env.root|..]
    else if |text| > 1 then
      "/"
    else
      ""
  }

  function Ignored(ig: string -> bool, text: string): bool {
    text != "" && ig(text)
  }

  /** Whether the path is handed on as it is. */
  predicate Passed(fl: Flags, ig: string -> bool, path: string) {
    (fl.magicLinks && "/dev/fd/" <= path) || (fl.mayIgnore && Ignored(ig, path))
  }

  /** From the sanitized text on: follow links, stay below the root, strip it from ignored paths,
      and follow links along the way once more. */
  function Followed(env: Env, cwd: Cwd, fl: Flags, ig: string -> bool, atRoot: bool, text: string): string
    requires cwd.At? ==> cwd.path != ""
  {
    var root := RootText(env);
    var t1 := if env.follow then OrKeep(Resolve(env, cwd, text), text) else text;
    var t2 := if root != "" && atRoot && !(root <= t1) then root else t1;
    var t3 := if root <= t2 && fl.mayIgnore && Ignored(ig, t2[|root|..]) then StripRoot(env, t2) else t2;
    if fl.walkAlong then OrKeep(Resolve(env, cwd, t3), t3) else t3
  }

  function PathResolution2(env: Env, cwd: Cwd, fd: DirFd, fl: Flags, ig: string -> bool, path: string): Buf
    requires cwd.At? ==> cwd.path != ""
  {
    if |path| >= PATH_MAX then
      Fail(ENAMETOOLONG)
    else if fl.magicLinks && path == "/proc/1/root" then
      Text("/")
    else if Passed(fl, ig, path) then
      Text(path)
    else if (path == "" || path[0] != '/') && fd.FdPath? && !("/" <= fd.path) then
      Text(path)
    else
      match Prefixed(env, fd, path)
      case Fail(e) => Fail(e)
      case Text(t) =>
        var atRoot := (path == "" || path[0] != '/') && fd.FdPath? && RootText(env) == fd.path;
        Text(Followed(env, cwd, fl, ig, atRoot, Sanitize(t)))
  }

  /** Between the resolution and the last step: the path as the first call leaves it. */
  function FirstCall(env: Env, cwd: Cwd, text: string): string
    requires cwd.At? ==> cwd.path != ""
  {
    if env.follow then OrKeep(Resolve(env, cwd, text), text) else text
  }

  /** The second resolution changes nothing, unless the root was stripped or put in meanwhile. */
  lemma SecondCallIdle(env: Env, here: Here, fl: Flags, ig: string -> bool, atRoot: bool, text: string)
    requires HereOk(here) && env.follow && LinkFree(env, here, text)
    requires var t1 := FirstCall(env, HereText(here), text);
             && (atRoot ==> RootText(env) <= t1)
             && !(RootText(env) <= t1 && fl.mayIgnore && Ignored(ig, t1[|RootText(env)|..]))
    ensures Followed(env, HereText(here), fl, ig, atRoot, text) == FirstCall(env, HereText(here), text)
  {
    hide Resolve, Coherent, Clear, Render;
    if Resolve(env, HereText(here), text).Path? {
      ResolveTwice(env, here, text, HereText(here));
    }
  }

  lemma RootEnd(rn: seq<string>)
    requires rn != [] && Named(Dir(Root, rn))
    ensures var o := Render(Dir(Root, rn));
            |o| > 1 && o[0] == '/' && o[|o| - 1] != '/' && (o[|o| - 1] == '.' ==> o[|o| - 2] != '/')
  {
    hide Sep;
    var x := rn[|rn| - 1];
    assert IsName(x);
    RootSecond(rn);
    SepTail(Sep(Render(Dir(Root, rn[..|rn| - 1]))), x);
  }

  lemma SepTail(o: string, x: string)
    requires IsName(x)
    ensures var r := o + x; r[|r| - 1] != '/' && (|r| > 1 && r[|r| - 1] == '.' ==> |x| > 1 && r[|r| - 2] != '/')
  {
    if |x| == 1 {
      assert x == [x[0]];
    } else {
      assert (o + x)[|o + x| - 2] == x[|x| - 2];
    }
  }

  /** The sanitized text of an absolute path with the root in front. */
  lemma SanitizedUnder(rn: seq<string>, path: string)
    requires rn != [] && Named(Dir(Root, rn)) && path != "" && path[0] == '/'
    ensures var root := Render(Dir(Root, rn)); var s := Sanitize(root + path);
            Under(root, s) && Comps(s) == rn + Comps(path)
  {
    hide Comps, Render, StripTrailingDots, StripTrailingSlashes;
    var root := Render(Dir(Root, rn));
    var t := root + path;
    RootEnd(rn);
    SanitizeFront(root, t);
    SanitizeKeeps(t);
    CompsJoin(root, path);
    RenderComps(Dir(Root, rn));
    DotsFront(root, t);
    TrailingDotsKeep(t);
    TrailingSlashesKeep(StripTrailingDots(t));
    var s := Sanitize(t);
    assert s <= t;
  }

  /** An absolute path whose components do not climb, resolved in a chroot where links do not climb
      either, stays below the root, whether links are followed or not, unless it is among the ignored
      ones; it is what the first resolution gives, but that walking along may still tidy up a path whose
      links are not followed. */
  lemma ChrootContains(env: Env, rn: seq<string>, here: Here, fd: DirFd, fl: Flags, ig: string -> bool, path: string)
    requires InChroot(env, rn) && LinksClimbNot(env)
    requires HereOk(here)
    requires path != "" && path[0] == '/' && !(env.root <= path) && ".." !in Comps(path)
    requires !(fl.magicLinks && path == "/proc/1/root") && !Passed(fl, ig, path)
    requires var t1 := FirstCall(env, HereText(here), Sanitize(env.root + path));
             env.root <= t1 ==> !(fl.mayIgnore && Ignored(ig, t1[|env.root|..]))
    ensures match PathResolution2(env, HereText(here), fd, fl, ig, path)
            case Fail(e) => e == ENAMETOOLONG
            case Text(t) =>
              && Under(env.root, t)
              && (env.follow || !fl.walkAlong ==> t == FirstCall(env, HereText(here), Sanitize(env.root + path)))
  {
    hide Comps, Render, Sanitize, Followed, Resolve, LinkFree, Clear, LinksClimbNot, InChroot, Under;
    ChrootRoot(env, rn);
    SanitizedUnder(rn, path);
    var s := Sanitize(env.root + path);
    UnderPrefix(env.root, s);
    NoUpsIn(rn, Comps(path));
    ResolveUnder(env, rn, here, s);
    var t1 := FirstCall(env, HereText(here), s);
    UnderPrefix(env.root, t1);
    if env.follow {
      RootedText(env, here, s);
      SecondCallIdle(env, here, fl, ig, false, s);
    } else {
      Unfollowed(env, here, fl, ig, s);
    }
  }

  /** Where links are not followed the text is taken as it is, and walked once when asked for. */
  lemma Unfollowed(env: Env, here: Here, fl: Flags, ig: string -> bool, s: string)
    requires HereOk(here) && !env.follow && env.root != "/" && env.root <= s
    requires !(fl.mayIgnore && Ignored(ig, s[|env.root|..]))
    ensures Followed(env, HereText(here), fl, ig, false, s) ==
              if fl.walkAlong then OrKeep(Resolve(env, HereText(here), s), s) else s
  {
    hide Resolve;
  }

  /** What starts with the root directory does not depend on the current one. */
  lemma RootedText(env: Env, here: Here, s: string)
    requires env.root != "" && env.root[0] == '/' && env.root <= s
    ensures LinkFree(env, here, s)
  {
    hide Coherent, Clear;
    assert s[0] == env.root[0];
  }

  lemma NoUpsIn(rn: seq<string>, cs: seq<string>)
    requires Named(Dir(Root, rn)) && ".." !in cs
    ensures ".." !in rn + cs
  {
    NamesNotUp(rn);
  }

  lemma ChrootRoot(env: Env, rn: seq<string>)
    requires InChroot(env, rn)
    ensures rn != [] && Named(Dir(Root, rn)) && env.root == Render(Dir(Root, rn))
    ensures env.root != "" && env.root[0] == '/' && env.root != "/"
  {
    hide Render, Clear;
    RootForm(env, rn);
  }

  lemma UnderPrefix(root: string, p: string)
    ensures Under(root, p) ==> root <= p
  {
  }

  /** The path shown to the program: without the root directory. */
  function SkipRoot(env: Env, text: string): string {
    if env.root == "/" || !(env.root <= text) then
      text
    else if |text| == |env.root| then
      "/"
    else
      text[|env.root|..]
  }

  lemma SanitizedNames(ns: seq<string>)
    requires ns != [] && Named(Dir(Root, ns))
    ensures var p := Render(Dir(Root, ns)); Sanitize(p) == p && Sanitize(p + "/") == p
  {
    hide Render;
    var p := Render(Dir(Root, ns));
    RootEnd(ns);
    assert (p + "/")[..|p|] == p;
  }

  /** A path resolved in the chroot and shown without the root resolves to the same place again. */
  lemma ChrootAgain(env: Env, rn: seq<string>, here: Here, fd: DirFd, fl: Flags, ig: string -> bool, path: string,
                    p: string)
    requires InChroot(env, rn) && LinksClimbNot(env)
    requires HereOk(here)
    requires path != "" && path[0] == '/' && ".." !in Comps(path)
    requires Resolve(env, HereText(here), Sanitize(env.root + path)) == Path(p)
    requires var q := SkipRoot(env, p);
             && !(env.root <= q) && !(fl.magicLinks && q == "/proc/1/root") && !Passed(fl, ig, q)
             && |env.root + q| < PATH_MAX &&
                !(fl.mayIgnore && Ignored(ig, p[if |env.root| <= |p| then |env.root| else 0..]))
    ensures PathResolution2(env, HereText(here), fd, fl, ig, SkipRoot(env, p)) == Text(p)
  {
    hide Comps, Render, Sanitize, Followed, Resolve, LinkFree, Clear, LinksClimbNot, InChroot, Under;
    ChrootRoot(env, rn);
    SanitizedUnder(rn, path);
    var s := Sanitize(env.root + path);
    UnderPrefix(env.root, s);
    NoUpsIn(rn, Comps(path));
    ResolveUnder(env, rn, here, s);
    ResolvedShape(env, here, s);
    ShownAgain(env, rn, p, ResolvedDir(env, here, s));
    RootedText(env, here, s);
    RootedText(env, here, p);
    ResolveTwice(env, here, s, HereText(here));
    if env.follow {
      SecondCallIdle(env, here, fl, ig, false, p);
    } else {
      Unfollowed(env, here, fl, ig, p);
    }
  }

  /** Putting the root back in front of a shown path and sanitizing it gives the path. */
  lemma ShownAgain(env: Env, rn: seq<string>, p: string, d: Dir)
    requires InChroot(env, rn) && Under(env.root, p) && Spells(p, d)
    ensures var q := SkipRoot(env, p);
            env.root <= p && q != "" && q[0] == '/' && Sanitize(env.root + q) == p
  {
    hide Render, Comps, Clear, Sanitize;
    ChrootRoot(env, rn);
    RootSecond(rn);
    if |p| == |env.root| {
      assert p == env.root;
      SanitizedNames(rn);
    } else {
      assert env.root + p[|env.root|..] == p;
      RootedBase(d, env.root);
      SanitizedNames(d.names);
    }
  }

  lemma RootedBase(d: Dir, root: string)
    requires !d.base.Rel? && Named(d) && root <= Render(d) && |root| > 1 && root[0] == '/' && root[1] != '/'
    ensures d.base == Root && d.names != []
  {
    hide Render, SkipSlashes, JoinNames, Lead, Sep;
    RootSplit(d.base, d.names);
    JoinStart(d.names);
    BareRoot(d.base);
    if d.names != [] {
      JoinText(d.base, [], d.names);
      assert [] + d.names == d.names;
    }
  }
}
