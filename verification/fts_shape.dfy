// What a tour shows of the file system, node by node: of which kind each node is, which entries stand in a
// directory and under which path, and how each directory is left.
module FtsShape {
  import opened FtsTree
  import opened FtsWalk

  /** What is asked about a path, and whether a link at its end is followed. */
  function Answer(w: World, path: string, follow: bool): Stat {
    if w.opts.logical || follow then w.fs.stat(path) else w.fs.lstat(path)
  }

  /** The path is a link that leads nowhere. */
  predicate Dangles(w: World, path: string, follow: bool) {
    (w.opts.logical || follow) && w.fs.stat(path).Missing? && !w.fs.lstat(path).Missing?
  }

  /** The kind of a node, said of the answers for its path: each kind exactly when; here tells that it is
      shown as an entry for the directory itself or the one above. */
  ghost predicate Kind(w: World, e: Ent, here: bool, follow: bool, above: seq<FileId>) {
    var a := Answer(w, e.path, follow);
    var dangling := Dangles(w, e.path, follow);
    && (e.info == F <==> a == Regular)
    && (e.info == DEFAULT <==> a == Special)
    && (e.info == SL <==> a == Symlink)
    && (e.info == SLNONE <==> dangling)
    && (e.info == NS <==> a.Missing? && !dangling)
    && (e.info == DOT <==> a.Directory? && here)
    && (e.info == DC <==> a.Directory? && !here && a.id in above)
    && (e.info == D <==> a.Directory? && !here && a.id !in above)
    && (a.Directory? ==> e.id == a.id)
    && (a.Missing? && !dangling ==> e.errno == a.errno)
  }

  /** So it is, and there is an error only where there is no answer. */
  ghost predicate Told(w: World, e: Ent, here: bool, follow: bool, above: seq<FileId>) {
    && Kind(w, e, here, follow, above)
    && (e.errno == 0 || (Answer(w, e.path, follow).Missing? && !Dangles(w, e.path, follow)))
  }

  lemma StatedTold(w: World, e: Ent, follow: bool, above: seq<FileId>)
    ensures var s := Stated(w, e, follow, above); var here := e.name == "." || e.name == "..";
            && Kind(w, s, here, follow, above) && s.name == e.name && s.path == e.path && s.level == e.level
            && (e.errno == 0 ==> Told(w, s, here, follow, above))
  {
  }

  // ---- directories

  /** The entries that are shown. */
  function Wanted(w: World, names: seq<string>): seq<string> {
    if names == [] then []
    else (if !w.opts.seedot && (names[0] == "." || names[0] == "..") then [] else [names[0]]) + Wanted(w, names[1..])
  }

  /** The path of a name below a path that ends in a slash or does not. */
  ghost predicate PathBelow(dir: string, name: string, path: string) {
    path == if dir != "" && dir[|dir| - 1] == '/' then dir + name else dir + "/" + name
  }

  /** cs are the entries in the order of the caller's comparison, if there is one. */
  ghost predicate Arrangement(w: World, cs: seq<string>, names: seq<string>) {
    || cs == names
    || (w.sorted && exists o: seq<nat> :: Permutation(o, |names|) && |cs| == |names| &&
                      forall i | 0 <= i < |o| :: cs[i] == names[o[i]])
  }

  /** vs are the visits after the first of the node e, below directories with the identities above. */
  ghost predicate Leaves(w: World, dev: int, e: Ent, vs: seq<Ent>, above: seq<FileId>)
    decreases |vs|, 1
  {
    if e.info != D then
      vs == []
    else if w.opts.xdev && e.id.dev != dev then
      vs == [e.(info := DP)]
    else
      match w.fs.list(e.path)
      case Unreadable(errno) => vs == [e.(info := DNR, errno := errno)]
      case Entries(names) =>
        && vs != [] && vs[|vs| - 1] == e.(info := DP)
        && exists cs :: Arrangement(w, cs, Wanted(w, names)) && Filled(w, dev, e, cs, vs[..|vs| - 1], above + [e.id])
  }

  /** vs are the visits of the entries cs of the directory dir, each with what is inside it. */
  ghost predicate Filled(w: World, dev: int, dir: Ent, cs: seq<string>, vs: seq<Ent>, above: seq<FileId>)
    decreases |vs|, 0
  {
    if cs == [] then
      vs == []
    else
      && vs != []
      && vs[0].name == cs[0] && vs[0].level == dir.level + 1 && PathBelow(dir.path, cs[0], vs[0].path)
      && Told(w, vs[0], cs[0] == "." || cs[0] == "..", false, above)
      && exists n: nat :: 1 <= n <= |vs| && Leaves(w, dev, vs[0], vs[1..n], above)
                          && Filled(w, dev, dir, cs[1..], vs[n..], above)
  }

  // ---- the tour has this shape

  lemma {:induction false} SeenWanted(w: World, names: seq<string>)
    ensures Seen(w, names) == Wanted(w, names)
  {
    if names != [] {
      SeenWanted(w, names[1..]);
    }
  }

  lemma {:induction false} ChildrenAre(w: World, dir: Ent, above: seq<FileId>, names: seq<string>)
    ensures var es := Children(w, dir, above, names);
            |es| == |names| && forall i | 0 <= i < |names| :: es[i] == Child(w, dir, above, names[i])
  {
    hide Child;
    if names != [] {
      ChildrenAre(w, dir, above, names[1..]);
      assert forall i | 0 < i < |names| :: names[i] == names[1..][i - 1];
    }
  }

  function Picked(names: seq<string>, o: seq<nat>): (cs: seq<string>)
    requires forall i | 0 <= i < |o| :: o[i] < |names|
    ensures |cs| == |o| && forall i | 0 <= i < |o| :: cs[i] == names[o[i]]
  {
    if o == [] then [] else [names[o[0]]] + Picked(names, o[1..])
  }

  /** The nodes of a directory are its entries in some order. */
  lemma ListedNames(w: World, dir: Ent, above: seq<FileId>, names: seq<string>) returns (cs: seq<string>)
    ensures var es := Listed(w, dir, above, names);
            && Arrangement(w, cs, Wanted(w, names)) && |cs| == |es|
            && forall i | 0 <= i < |cs| :: es[i] == Child(w, dir, above + [dir.id], cs[i])
  {
    hide Child, Wanted, Seen;
    SeenWanted(w, names);
    var kept := Wanted(w, names);
    ChildrenAre(w, dir, above + [dir.id], kept);
    var es := Children(w, dir, above + [dir.id], kept);
    var o := w.sort(Keys(es));
    if w.sorted && |es| > 1 && Permutation(o, |es|) {
      cs := Picked(kept, o);
    } else {
      cs := kept;
    }
  }

  lemma ChildTold(w: World, dir: Ent, above: seq<FileId>, name: string)
    ensures var e := Child(w, dir, above, name);
            && e.name == name && e.level == dir.level + 1 && PathBelow(dir.path, name, e.path)
            && Told(w, e, name == "." || name == "..", false, above)
  {
    StatedTold(w, Ent(name, ChildPath(dir.path, name), dir.level + 1, INIT, NOID, 0), false, above);
    hide Stated, Told;
  }

  /** Whatever directory the tour enters, it shows what is in it and leaves it again. */
  lemma {:induction false} InsideShape(w: World, dev: int, e: Ent, above: seq<FileId>)
    requires Sane(w.fs) && Permutes(w.sort) && Placed(w, e, above) && (e.info == D ==> e.errno == 0)
    ensures Leaves(w, dev, e, Inside(w, dev, e, above), above)
    decreases Room(w, above), 0
  {
    hide Sane, Permutes, Told, Filled, Listed, TourAll, Seen, Wanted, Room, Arrangement;
    if e.info == D && !Crosses(w, dev, e) && w.fs.list(e.path).Entries? {
      var names := w.fs.list(e.path).names;
      RoomLess(w, above, e.id);
      ListedPlaced(w, e, above, names);
      SeenWanted(w, names);
      if Seen(w, names) == [] {
        NothingIn(w, dev, e, names, above + [e.id]);
      } else {
        var cs := ListedNames(w, e, above, names);
        var es := Listed(w, e, above, names);
        FilledTour(w, dev, e, cs, es, above + [e.id]);
        var vs := TourAll(w, dev, es, above + [e.id]);
        assert (vs + [Done(e)])[..|vs|] == vs;
      }
    }
  }

  lemma NothingIn(w: World, dev: int, e: Ent, names: seq<string>, above: seq<FileId>)
    requires Wanted(w, names) == []
    ensures Arrangement(w, [], Wanted(w, names)) && Filled(w, dev, e, [], [e.(info := DP)][..0], above)
  {
  }

  lemma {:induction false} FilledTour(w: World, dev: int, dir: Ent, cs: seq<string>, es: seq<Ent>, above: seq<FileId>)
    requires Sane(w.fs) && Permutes(w.sort) && AllPlaced(w, es, above)
    requires |cs| == |es| && forall i | 0 <= i < |cs| :: es[i] == Child(w, dir, above, cs[i])
    ensures Filled(w, dev, dir, cs, TourAll(w, dev, es, above), above)
    decreases Room(w, above), |es| + 1
  {
    hide Sane, Permutes, Told, Inside, Leaves, Child, Placed, AllPlaced, PathBelow, Room;
    if cs != [] {
      TourStep(w, dev, es, above);
      ChildTold(w, dir, above, cs[0]);
      ToldErrno(w, es[0], cs[0] == "." || cs[0] == "..", false, above);
      InsideShape(w, dev, es[0], above);
      FilledTour(w, dev, dir, cs[1..], es[1..], above);
      var inside := Inside(w, dev, es[0], above);
      var rest := TourAll(w, dev, es[1..], above);
      hide TourAll;
      var vs := [es[0]] + inside + rest;
      var n := 1 + |inside|;
      assert vs[1..n] == inside && vs[n..] == rest && vs[0] == es[0];
    }
  }

  lemma ToldErrno(w: World, e: Ent, here: bool, follow: bool, above: seq<FileId>)
    requires Told(w, e, here, follow, above)
    ensures e.info == D ==> e.errno == 0
  {
  }

  // ---- the roots

  /** The name of a root: what stands behind its last slash. */
  ghost predicate LastName(arg: string, name: string) {
    if arg == "/" || '/' !in arg then name == arg
    else '/' !in name && |name| < |arg| && arg == arg[..|arg| - |name|] + name && arg[|arg| - |name| - 1] == '/'
  }

  /** vs are the visits of the roots cs, each with what is inside it; a root that is a directory is one whatever
      it is called. */
  ghost predicate RootsShown(w: World, cs: seq<string>, vs: seq<Ent>) {
    if cs == [] then
      vs == []
    else
      && vs != []
      && vs[0].path == cs[0] && vs[0].level == 0 && LastName(cs[0], vs[0].name)
      && Told(w, vs[0], false, w.opts.comfollow, [])
      && exists n: nat :: 1 <= n <= |vs| && Leaves(w, vs[0].id.dev, vs[0], vs[1..n], [])
                          && RootsShown(w, cs[1..], vs[n..])
  }

  lemma {:induction false} BaseAt(name: string)
    ensures var n := BaseStart(name);
            '/' !in name[n..] && (n > 0 ==> name[n - 1] == '/') && (n == 0 ==> '/' !in name)
    decreases |name|
  {
    if name != "" && name[|name| - 1] != '/' {
      BaseAt(name[..|name| - 1]);
      var n := BaseStart(name);
      assert name[n..] == name[..|name| - 1][n..] + [name[|name| - 1]];
      assert name == name[..|name| - 1] + [name[|name| - 1]];
    }
  }

  lemma BaseLast(name: string)
    ensures LastName(name, BaseName(name))
  {
    BaseAt(name);
    hide BaseStart;
    var n := BaseStart(name);
    if n == 0 {
    } else if n == 1 && |name| == 1 {
      assert name == "/";
    } else {
      assert name == name[..n] + name[n..];
      assert name[n - 1] == '/' && '/' in name;
    }
  }

  lemma RootTold(w: World, arg: string)
    ensures var e := Loaded(RootArg(w, arg));
            e.path == arg && e.level == 0 && LastName(arg, e.name) && Told(w, e, false, w.opts.comfollow, [])
  {
    BaseLast(arg);
    hide BaseName, LastName;
    StatedTold(w, Ent(arg, arg, 0, INIT, NOID, 0), w.opts.comfollow, []);
    hide Stated;
  }

  lemma {:induction false} RootArgsAre(w: World, argv: seq<string>)
    ensures |RootArgs(w, argv)| == |argv| && forall i | 0 <= i < |argv| :: RootArgs(w, argv)[i] == RootArg(w, argv[i])
  {
    hide RootArg;
    if argv != [] {
      RootArgsAre(w, argv[1..]);
      assert forall i | 0 < i < |argv| :: argv[i] == argv[1..][i - 1];
    }
  }

  lemma {:induction false} ReversedAt(es: seq<Ent>)
    ensures |Reversed(es)| == |es| && forall i | 0 <= i < |es| :: Reversed(es)[i] == es[|es| - 1 - i]
  {
    if es != [] {
      ReversedAt(es[1..]);
      forall i | 0 <= i < |es|
        ensures Reversed(es)[i] == es[|es| - 1 - i]
      {
        if i < |es| - 1 {
          assert es[1..][|es| - 2 - i] == es[|es| - 1 - i];
        }
      }
    }
  }

  function Turned(o: seq<nat>, n: nat): (r: seq<nat>)
    requires forall i | 0 <= i < |o| :: o[i] < n
    ensures |r| == |o| && forall i | 0 <= i < |o| :: r[i] == n - 1 - o[i]
  {
    if o == [] then [] else [n - 1 - o[0]] + Turned(o[1..], n)
  }

  lemma TurnedPermutes(o: seq<nat>, n: nat)
    requires Permutation(o, n)
    ensures Permutation(Turned(o, n), n)
  {
  }

  lemma ArrangedBy(w: World, cs: seq<string>, names: seq<string>, o: seq<nat>)
    requires w.sorted && Permutation(o, |names|) && cs == Picked(names, o)
    ensures Arrangement(w, cs, names)
  {
  }

  /** The roots are the arguments in some order. */
  lemma RootNames(w: World, argv: seq<string>) returns (cs: seq<string>)
    requires Permutes(w.sort)
    ensures Arrangement(w, cs, argv) && |cs| == |Roots(w, argv)|
    ensures forall i | 0 <= i < |cs| :: Roots(w, argv)[i] == RootArg(w, cs[i])
  {
    hide *;
    RootArgsAre(w, argv);
    ReversedAt(RootArgs(w, argv));
    if w.sorted && |argv| > 1 {
      var o := OrderOf(w, argv);
      RootsTurned(w, argv, RootArgs(w, argv), o);
      TurnedPermutes(o, |argv|);
      cs := Picked(argv, Turned(o, |argv|));
      ArrangedBy(w, cs, argv, Turned(o, |argv|));
    } else {
      cs := argv;
      RootsStraight(w, argv);
    }
  }

  lemma OrderOf(w: World, argv: seq<string>) returns (o: seq<nat>)
    requires Permutes(w.sort) && |Reversed(RootArgs(w, argv))| == |argv|
    ensures o == w.sort(Keys(Reversed(RootArgs(w, argv)))) && Permutation(o, |argv|)
  {
    hide RootArgs, Reversed, Permutation;
    o := w.sort(Keys(Reversed(RootArgs(w, argv))));
  }

  lemma RootsStraight(w: World, argv: seq<string>)
    requires !(w.sorted && |argv| > 1) && |RootArgs(w, argv)| == |Reversed(RootArgs(w, argv))| == |argv|
    requires forall i | 0 <= i < |argv| :: RootArgs(w, argv)[i] == RootArg(w, argv[i])
    requires forall i | 0 <= i < |argv| :: Reversed(RootArgs(w, argv))[i] == RootArgs(w, argv)[|argv| - 1 - i]
    ensures Arrangement(w, argv, argv) && |Roots(w, argv)| == |argv|
    ensures forall i | 0 <= i < |argv| :: Roots(w, argv)[i] == RootArg(w, argv[i])
  {
    hide RootArgs, Reversed, RootArg;
  }

  lemma RootsTurned(w: World, argv: seq<string>, es: seq<Ent>, o: seq<nat>)
    requires w.sorted && es == RootArgs(w, argv) && |es| == |argv| > 1 && o == w.sort(Keys(Reversed(es)))
    requires |Reversed(es)| == |es| && Permutation(o, |es|)
    requires forall i | 0 <= i < |es| :: Reversed(es)[i] == es[|es| - 1 - i] && es[i] == RootArg(w, argv[i])
    ensures |Roots(w, argv)| == |argv| == |o| && forall i | 0 <= i < |o| :: o[i] < |argv|
    ensures forall i | 0 <= i < |argv| :: Roots(w, argv)[i] == RootArg(w, argv[|argv| - 1 - o[i]])
  {
    hide RootArgs, Reversed, Keys, RootArg;
    assert Roots(w, argv) == Arranged(Reversed(es), o);
  }

  lemma {:induction false} RootsTour(w: World, cs: seq<string>, es: seq<Ent>)
    requires Sane(w.fs) && Permutes(w.sort) && AllPlaced(w, es, [])
    requires |cs| == |es| && forall i | 0 <= i < |cs| :: es[i] == RootArg(w, cs[i])
    ensures RootsShown(w, cs, TourRoots(w, es))
    decreases |cs|
  {
    hide Sane, Permutes, Told, Inside, Leaves, RootArg, Loaded, Placed, AllPlaced, LastName;
    if cs != [] {
      RootStep(w, es);
      RootTold(w, cs[0]);
      var e := Loaded(es[0]);
      ToldErrno(w, e, false, w.opts.comfollow, []);
      InsideShape(w, e.id.dev, e, []);
      RootsTour(w, cs[1..], es[1..]);
      var inside := Inside(w, e.id.dev, e, []);
      var rest := TourRoots(w, es[1..]);
      hide TourRoots;
      var vs := [e] + inside + rest;
      var n := 1 + |inside|;
      assert vs[1..n] == inside && vs[n..] == rest && vs[0] == e;
    }
  }

  /** The tour shows the file system as it is: the roots in the order of the comparison, each node of the kind
      that the answers for its path make it, each directory with its entries, down to the last. */
  lemma TourShown(w: World, argv: seq<string>) returns (cs: seq<string>)
    requires Sane(w.fs) && Permutes(w.sort) && AllPlaced(w, Roots(w, argv), [])
    ensures Arrangement(w, cs, argv) && RootsShown(w, cs, TourRoots(w, Roots(w, argv)))
  {
    hide Sane, AllPlaced, Roots, RootArg, TourRoots;
    cs := RootNames(w, argv);
    RootsTour(w, cs, Roots(w, argv));
  }
}
