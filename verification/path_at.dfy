// What path_resolution2 makes of a path for every starting point: a directory descriptor, the current
// directory, the root; of ignored paths; and of a descriptor of the root.
module PathAt {
  import opened Limits
  import opened PathText
  import opened PathDir
  import opened PathMachine
  import opened PathWalk
  import opened PathFinal
  import opened PathProps
  import opened PathTheorems
  import opened PathRoom
  import opened PathChroot
  import opened PathResolution
  import opened PathPlain

  predicate IsRelative(path: string) {
    !("/" <= path)
  }

  /** Neither too long nor handed on as it is. */
  predicate Ordinary(fl: Flags, ig: string -> bool, path: string) {
    && |path| < PATH_MAX
    && !(fl.magicLinks && (path == "/proc/1/root" || "/dev/fd/" <= path))
    && !(fl.mayIgnore && path != "" && ig(path))
  }

  /** The path where resolving it gives one, else as it is. */
  function Settled(env: Env, cwd: Cwd, s: string): string
    requires cwd.At? ==> cwd.path != ""
  {
    if Resolve(env, cwd, s).Path? then Resolve(env, cwd, s).path else s
  }

  /** An ignored path below the root is shown without the root. */
  function Shown(env: Env, fl: Flags, ig: string -> bool, u: string): string {
    if env.root != "/" && env.root <= u && fl.mayIgnore && u != env.root && ig(u[|env.root|..]) then u[|env.root|..]
    else u
  }

  // ---- what is not resolved

  lemma TooLongPath(env: Env, cwd: Cwd, fd: DirFd, fl: Flags, ig: string -> bool, path: string)
    requires (cwd.At? ==> cwd.path != "") && |path| >= PATH_MAX
    ensures PathResolution2(env, cwd, fd, fl, ig, path) == Fail(ENAMETOOLONG)
  {
  }

  /** An ignored path, and one of a descriptor of the process, comes back as it is. */
  lemma HandedOn(env: Env, cwd: Cwd, fd: DirFd, fl: Flags, ig: string -> bool, path: string)
    requires (cwd.At? ==> cwd.path != "") && |path| < PATH_MAX && !Ordinary(fl, ig, path)
    ensures PathResolution2(env, cwd, fd, fl, ig, path)
         == Text(if fl.magicLinks && path == "/proc/1/root" then "/" else path)
  {
  }

  /** A descriptor that fails, and one whose path is not absolute, matter to relative paths only. */
  lemma BadDir(env: Env, cwd: Cwd, fd: DirFd, fl: Flags, ig: string -> bool, path: string)
    requires (cwd.At? ==> cwd.path != "") && Ordinary(fl, ig, path) && IsRelative(path)
    ensures fd.FdError? ==> PathResolution2(env, cwd, fd, fl, ig, path) == Fail(fd.errno)
    ensures fd.FdPath? && !("/" <= fd.path) ==> PathResolution2(env, cwd, fd, fl, ig, path) == Text(path)
    ensures fd.FdPath? && "/" <= fd.path && |fd.path| + 1 + |path| >= PATH_MAX ==>
              PathResolution2(env, cwd, fd, fl, ig, path) == Fail(ENAMETOOLONG)
  {
  }

  // ---- one text for every start

  lemma Steps(env: Env, cwd: Cwd, fl: Flags, ig: string -> bool, s: string)
    requires (cwd.At? ==> cwd.path != "") && !fl.walkAlong
    ensures Followed(env, cwd, fl, ig, false, s)
         == Shown(env, fl, ig, if env.follow then Settled(env, cwd, s) else s)
  {
    hide Resolve;
  }

  /** From a directory other than the root directory: the components of the directory, then those of the path. */
  lemma BelowDir(env: Env, cwd: Cwd, dir: string, fl: Flags, ig: string -> bool, path: string) returns (s: string)
    requires (cwd.At? ==> cwd.path != "") && Ordinary(fl, ig, path) && IsRelative(path) && "/" <= dir
    requires |dir| + 1 + |path| < PATH_MAX && (env.root != "/" ==> dir != env.root) && !fl.walkAlong
    ensures "/" <= s && Comps(s) == Comps(dir) + Comps(path) && |s| <= |dir| + 1 + |path|
    ensures s == Sanitize(dir + "/" + path)
    ensures PathResolution2(env, cwd, FdPath(dir), fl, ig, path)
         == Text(Shown(env, fl, ig, if env.follow then Settled(env, cwd, s) else s))
  {
    hide Comps, Sanitize, Resolve;
    var t := dir + "/" + path;
    s := Sanitize(t);
    SanitizeKeeps(t);
    BelowComps(dir, path);
    Steps(env, cwd, fl, ig, s);
    hide Followed, Shown, Settled;
  }

  lemma BelowComps(dir: string, path: string)
    ensures Comps(dir + "/" + path) == Comps(dir) + Comps(path)
  {
    hide Comps;
    assert dir + "/" + path == dir + ("/" + path);
    CompsJoin(dir, "/" + path);
    SlashStep("/" + path);
    assert ("/" + path)[1..] == path;
  }

  /** From the current directory: the components of the path, still relative where links are not followed. */
  lemma FromCwd(env: Env, cwd: Cwd, fl: Flags, ig: string -> bool, path: string) returns (s: string)
    requires (cwd.At? ==> cwd.path != "") && Ordinary(fl, ig, path) && IsRelative(path) && "/" <= env.root
    requires !fl.walkAlong
    ensures IsRelative(s) && Comps(s) == Comps(path) && |s| <= |path| && (s == "" <==> path == "")
    ensures PathResolution2(env, cwd, AtCwd, fl, ig, path)
         == Text(if env.follow then Shown(env, fl, ig, Settled(env, cwd, s)) else s)
  {
    hide Comps, Sanitize, Resolve;
    s := Sanitize(path);
    SanitizeKeeps(path);
    if path == "" {
      NothingSanitized();
    }
  }

  lemma NothingSanitized()
    ensures Sanitize("") == ""
  {
  }

  lemma SanitizedPrefix(t: string)
    requires "/" <= t
    ensures Sanitize(t) <= t
  {
    hide Comps, StripTrailingDots, StripTrailingSlashes;
    assert t[0] == '/';
    assert StripDots(t) == t;
    TrailingDotsKeep(t);
    TrailingSlashesKeep(StripTrailingDots(t));
  }

  /** From the root, whatever the descriptor: the components of the root directory, unless they are there
      already, then those of the path. */
  lemma FromRoot(env: Env, cwd: Cwd, fd: DirFd, fl: Flags, ig: string -> bool, path: string) returns (s: string)
    requires (cwd.At? ==> cwd.path != "") && Ordinary(fl, ig, path) && "/" <= path && "/" <= env.root
    requires !fl.walkAlong
    ensures var rest := if env.root != "/" && env.root <= path then path[|env.root|..] else path;
            var front := if env.root == "/" then "" else env.root;
            if |front| + |rest| >= PATH_MAX then
              PathResolution2(env, cwd, fd, fl, ig, path) == Fail(ENAMETOOLONG)
            else
              && "/" <= s && Comps(s) == Comps(front + rest) && s <= front + rest
              && PathResolution2(env, cwd, fd, fl, ig, path)
                 == Text(Shown(env, fl, ig, if env.follow then Settled(env, cwd, s) else s))
  {
    hide Comps, Sanitize, Resolve;
    var rest := if env.root != "/" && env.root <= path then path[|env.root|..] else path;
    var front := if env.root == "/" then "" else env.root;
    s := Sanitize(front + rest);
    SanitizeKeeps(front + rest);
    SanitizedPrefix(front + rest);
    Steps(env, cwd, fl, ig, s);
    hide Followed, Shown, Settled;
  }

  lemma AlongSteps(env: Env, cwd: Cwd, fl: Flags, ig: string -> bool, atRoot: bool, s: string)
    requires (cwd.At? ==> cwd.path != "") && fl.walkAlong
    ensures Followed(env, cwd, fl, ig, atRoot, s)
         == Settled(env, cwd, Followed(env, cwd, fl.(walkAlong := false), ig, atRoot, s))
  {
    hide Resolve;
  }

  /** Walking along settles what comes out once more. */
  lemma AlongAfter(env: Env, cwd: Cwd, fd: DirFd, fl: Flags, ig: string -> bool, path: string)
    requires (cwd.At? ==> cwd.path != "") && Ordinary(fl, ig, path) && fl.walkAlong
    requires IsRelative(path) && fd.FdPath? ==> "/" <= fd.path
    ensures match PathResolution2(env, cwd, fd, fl.(walkAlong := false), ig, path)
            case Fail(e) => PathResolution2(env, cwd, fd, fl, ig, path) == Fail(e)
            case Text(u) => PathResolution2(env, cwd, fd, fl, ig, path) == Text(Settled(env, cwd, u))
  {
    hide Comps, Sanitize, Resolve, Followed, Settled;
    if Prefixed(env, fd, path).Text? {
      var atRoot := (path == "" || path[0] != '/') && fd.FdPath? && PathResolution.RootText(env) == fd.path;
      AlongSteps(env, cwd, fl, ig, atRoot, Sanitize(Prefixed(env, fd, path).text));
    }
  }

  // ---- where that leads

  /** With links followed a path below a directory leads where the recursive resolver goes from there. */
  lemma BelowDirReached(env: Env, here: Here, dn: seq<string>, fl: Flags, ig: string -> bool, path: string, m: nat)
    returns (s: string)
    requires HereOk(here) && dn != [] && Named(Dir(Root, dn)) && env.follow && ShortLinks(env, m)
    requires forall k | 1 <= k <= |dn| :: NotLink(env, Upto(dn, k))
    requires Ordinary(fl, ig, path) && IsRelative(path) && Comps(path) != [] && !fl.walkAlong
    requires env.root != "/" ==> Upto(dn, |dn|) != env.root
    requires |Upto(dn, |dn|)| + 1 + |path| + (if here.Names? then |HereText(here).path| else 0)
             + SYMLOOP_MAX * (m + 1) + 4 < PATH_MAX
    ensures Comps(s) == dn + Comps(path)
    ensures PathResolution2(env, HereText(here), FdPath(Upto(dn, |dn|)), fl, ig, path)
         == match Walk(env, Comps(path), Ends(s), Dir(Root, dn), true, 0)
            case Ended(at) => Text(Shown(env, fl, ig, if at.base.Rel? then s else Render(at)))
            case Broken(_) => Text(Shown(env, fl, ig, s))
  {
    hide Comps, Ends, Resolve, Sanitize, JoinNames, Render, Walk, Upto, Shown, PathResolution2, NotLink, ShortLinks;
    var dir := Upto(dn, |dn|);
    UptoText(dn, |dn|);
    assert dn[..|dn|] == dn;
    RenderComps(Dir(Root, dn));
    UptoRooted(dn);
    s := BelowDir(env, HereText(here), dir, fl, ig, path);
    RootEnd(dn);
    SanitizeFront(dir, dir + "/" + path);
    RootSecond(dn);
    RootedLead(dir, s[|dir|..]);
    assert dir + s[|dir|..] == s;
    ResolveRoomy(env, here, s, m);
    UptoLinks(env, dn);
    assert [] + dn == dn;
    WalkAlong(env, Root, [], dn, Comps(path), Ends(s), false, 0);
    WalkRooted(env, Comps(path), Ends(s), Dir(Root, dn), true, 0);
  }

  lemma UptoRooted(ns: seq<string>)
    ensures "/" <= Upto(ns, |ns|)
  {
    hide JoinNames;
  }

  lemma UptoLinks(env: Env, ns: seq<string>)
    requires Named(Dir(Root, ns)) && forall k | 1 <= k <= |ns| :: NotLink(env, Upto(ns, k))
    ensures forall k | 1 <= k <= |ns| :: NotLink(env, Render(Dir(Root, [] + ns[..k])))
  {
    hide JoinNames, Render, Upto, NotLink;
    forall k | 1 <= k <= |ns|
      ensures NotLink(env, Render(Dir(Root, [] + ns[..k])))
    {
      UptoText(ns, k);
      assert [] + ns[..k] == ns[..k];
    }
  }

  /** Where nothing is a link: to the names that the path reaches from the directory. */
  lemma BelowDirPlain(env: Env, here: Here, dn: seq<string>, fl: Flags, ig: string -> bool, path: string)
    requires HereOk(here) && dn != [] && Named(Dir(Root, dn)) && env.follow
    requires forall t :: env.link(t) == NoLink(EINVAL)
    requires Ordinary(fl, ig, path) && IsRelative(path) && !fl.walkAlong
    requires env.root != "/" ==> Upto(dn, |dn|) != env.root
    requires |Upto(dn, |dn|)| + 1 + |path| + (if here.Names? then |HereText(here).path| else 0)
             + SYMLOOP_MAX + 4 < PATH_MAX
    ensures PathResolution2(env, HereText(here), FdPath(Upto(dn, |dn|)), fl, ig, path)
         == Text(Shown(env, fl, ig, Rooted("", Reached(dn, Comps(path)))))
  {
    hide Comps, Ends, Resolve, Sanitize, JoinNames, Render, Walk, Upto, Shown, PathResolution2, NotLink, Reached;
    var dir := Upto(dn, |dn|);
    UptoText(dn, |dn|);
    assert dn[..|dn|] == dn;
    RenderComps(Dir(Root, dn));
    UptoRooted(dn);
    var s := BelowDir(env, HereText(here), dir, fl, ig, path);
    RootEnd(dn);
    SanitizeFront(dir, dir + "/" + path);
    RootSecond(dn);
    ExistingResolve(env, here, s);
    NamesNotUp(dn);
    ReachedOver([], dn, Comps(path));
    assert [] + dn == dn;
    assert s[0] == dir[0] && s[1] == dir[1];
  }

  lemma FromCwdPlain(env: Env, here: Here, fl: Flags, ig: string -> bool, path: string)
    requires here.Names? && HereOk(here) && "/" <= env.root && env.follow
    requires forall t :: env.link(t) == NoLink(EINVAL)
    requires Ordinary(fl, ig, path) && IsRelative(path) && path != "" && !fl.walkAlong
    requires |path| + |HereText(here).path| + SYMLOOP_MAX + 4 < PATH_MAX
    ensures PathResolution2(env, HereText(here), AtCwd, fl, ig, path)
         == Text(Shown(env, fl, ig, Rooted("", Reached(here.names, Comps(path)))))
  {
    hide Comps, Resolve, Sanitize, JoinNames, Render, Shown, PathResolution2, Reached;
    var s := FromCwd(env, HereText(here), fl, ig, path);
    ExistingResolve(env, here, s);
  }

  /** From the root: to the names reached from the root directory, which with "/" is no directory at all. */
  lemma FromRootPlain(env: Env, here: Here, rn: seq<string>, fd: DirFd, fl: Flags, ig: string -> bool, path: string)
    returns (s: string)
    requires HereOk(here) && RootNames(env, rn) && env.follow && forall t :: env.link(t) == NoLink(EINVAL)
    requires Ordinary(fl, ig, path) && "/" <= path && !fl.walkAlong && (env.root == "/" || !(env.root <= path))
    requires |env.root| + |path| + (if here.Names? then |HereText(here).path| else 0) + SYMLOOP_MAX + 4 < PATH_MAX
    ensures s <= (if env.root == "/" then path else env.root + path)
    ensures PathResolution2(env, HereText(here), fd, fl, ig, path)
         == Text(Shown(env, fl, ig, Rooted(s, Reached(rn, Comps(path)))))
  {
    hide Comps, Resolve, Sanitize, JoinNames, Render, Shown, PathResolution2, Reached, RootNames;
    MovedComps(env, path, rn);
    RootIs(env, rn);
    RootAbsolute(env, rn);
    s := FromRoot(env, HereText(here), fd, fl, ig, path);
    ExistingResolve(env, here, s);
    RootUps(env, rn);
    ReachedOver([], rn, Comps(path));
    assert [] + rn == rn && [] + Comps(path) == Comps(path) && "" + path == path;
  }

  lemma RootAbsolute(env: Env, rn: seq<string>)
    requires RootNames(env, rn)
    ensures "/" <= env.root
  {
    hide JoinNames;
  }

  lemma RootUps(env: Env, rn: seq<string>)
    requires RootNames(env, rn)
    ensures ".." !in rn
  {
    NamesNotUp(rn);
  }

  // ---- a descriptor of the root directory

  /** What would lead out of the root directory, as texts go, leads to the root directory itself. */
  lemma BelowRootDir(env: Env, cwd: Cwd, fl: Flags, ig: string -> bool, path: string) returns (s: string)
    requires (cwd.At? ==> cwd.path != "") && Ordinary(fl, ig, path) && IsRelative(path)
    requires "/" <= env.root && env.root != "/" && |env.root| + 1 + |path| < PATH_MAX && !fl.walkAlong
    ensures "/" <= s && Comps(s) == Comps(env.root) + Comps(path) && s <= env.root + "/" + path
    ensures var u := if env.follow then Settled(env, cwd, s) else s;
            PathResolution2(env, cwd, FdPath(env.root), fl, ig, path) ==
            Text(Shown(env, fl, ig, if env.root <= u then u else env.root))
  {
    hide Comps, Sanitize, Resolve;
    var t := env.root + "/" + path;
    s := Sanitize(t);
    SanitizeKeeps(t);
    SanitizedPrefix(t);
    BelowComps(env.root, path);
    RootSteps(env, cwd, fl, ig, s);
    hide Followed, Shown, Settled;
  }

  lemma RootSteps(env: Env, cwd: Cwd, fl: Flags, ig: string -> bool, s: string)
    requires (cwd.At? ==> cwd.path != "") && !fl.walkAlong && env.root != "/" && env.root != ""
    ensures var u := if env.follow then Settled(env, cwd, s) else s;
            Followed(env, cwd, fl, ig, true, s) == Shown(env, fl, ig, if env.root <= u then u else env.root)
  {
    hide Resolve;
  }

  /** A descriptor of the root directory leads nowhere but to the root directory and below it, exactly unless
      the path it resolves to starts with the text of the root directory and goes on without a slash. */
  lemma RootDirContains(env: Env, cwd: Cwd, fl: Flags, ig: string -> bool, path: string) returns (s: string)
    requires (cwd.At? ==> cwd.path != "") && Ordinary(fl, ig, path) && IsRelative(path) && env.follow
    requires "/" <= env.root && env.root != "/" && |env.root| + 1 + |path| < PATH_MAX && !fl.walkAlong && !fl.mayIgnore
    ensures Comps(s) == Comps(env.root) + Comps(path)
    ensures var u := Settled(env, cwd, s);
            && PathResolution2(env, cwd, FdPath(env.root), fl, ig, path).Text?
            && (Under(env.root, PathResolution2(env, cwd, FdPath(env.root), fl, ig, path).text)
                <==> !(env.root < u && u[|env.root|] != '/'))
  {
    hide Comps, Resolve, PathResolution2;
    s := BelowRootDir(env, cwd, fl, ig, path);
  }

  /** The file system of the next lemma: root directory /a, everything exists, nothing is a link. */
  function TwoDirs(): Env {
    Env(t => NoLink(EINVAL), true, true, "/a", 0)
  }

  /** From a descriptor of /a the path ../ab leads to /ab, which is not below /a. */
  lemma SiblingReached(ig: string -> bool)
    ensures PathResolution2(TwoDirs(), At("/"), FdPath("/a"), Flags(false, false, false), ig, "../ab") == Text("/ab")
    ensures !Under("/a", "/ab")
  {
    hide Resolve, PathResolution2, Comps, Reached, Sanitize;
    var env := TwoDirs();
    var here := Names([]);
    assert "../ab"[0] != '/';
    var s := BelowRootDir(env, At("/"), Flags(false, false, false), ig, "../ab");
    CompsOfTwo();
    assert HereText(here) == At("/");
    ExistingResolve(env, here, s);
    SiblingNames();
    SecondOf("/a" + "/" + "../ab", s);
  }

  lemma SecondOf(t: string, s: string)
    requires s <= t && |t| > 1 && t[1] != '/'
    ensures !("//" <= s)
  {
  }

  lemma CompsOfTwo()
    ensures Comps("/a") == ["a"] && Comps("../ab") == ["..", "ab"]
  {
    assert Slashed(["", "a"][1..]) == "a";
    CompsAre(["", "a"]);
    assert Slashed(["", "a"]) == "/a" && Kept(["", "a"]) == ["a"] by {
      assert ["", "a"][1..] == ["a"] && ["a"][1..] == [];
      assert Kept(["a"]) == ["a"];
    }
    CompsAre(["..", "ab"]);
    assert Slashed(["..", "ab"]) == "../ab" && Kept(["..", "ab"]) == ["..", "ab"] by {
      assert ["..", "ab"][1..] == ["ab"] && ["ab"][1..] == [];
      assert Kept(["ab"]) == ["ab"];
    }
  }

  lemma SiblingNames()
    ensures Reached([], ["a"] + ["..", "ab"]) == ["ab"] && JoinNames(["ab"]) == "ab"
  {
    var w := ["a"] + ["..", "ab"];
    assert w[1..] == ["..", "ab"] && ["..", "ab"][1..] == ["ab"] && ["ab"][1..] == [];
    assert [] + ["a"] == ["a"] && ["a"][..0] == [] && [] + ["ab"] == ["ab"];
    assert Reached(["ab"], []) == ["ab"];
    assert Reached([], ["ab"]) == ["ab"];
    assert Reached(["a"], ["..", "ab"]) == ["ab"];
  }
}
