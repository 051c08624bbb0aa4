// Names of the resolved path, and the current directory in front of a relative one.
module PathFinal {
  import opened Limits
  import opened PathDir
  import opened PathMachine

  /** The current directory as the names on its path, or the error of asking for it. */
  datatype Here = Names(names: seq<string>) | Unknown(errno: int)

  function HereText(h: Here): (r: Cwd)
    ensures r.At? ==> r.path != ""
  {
    match h
    case Names(ns) => At(Render(Dir(Root, ns)))
    case Unknown(e) => Lost(e)
  }

  function DropLast(ns: seq<string>, n: nat): seq<string>
    decreases n
  {
    if n == 0 then ns else DropLast(if ns == [] then [] else ns[..|ns| - 1], n - 1)
  }

  /** A place seen from the root. */
  function Placed(at: Dir, cwd: seq<string>): Dir {
    match at.base
    case Rel(n) => Dir(Root, DropLast(cwd, n) + at.names)
    case _ => at
  }

  lemma RootText(ns: seq<string>)
    requires Named(Dir(Root, ns))
    ensures var o := Render(Dir(Root, ns)); o != "" && o[0] == '/' && (o == "/" || o[|o| - 1] != '/')
  {
    hide Render;
    RenderEnd(Dir(Root, ns));
    RenderLen(Dir(Root, ns));
  }

  lemma {:induction false} CutDirJoin(o: string, x: string)
    requires o != "" && (o == "/" || o[|o| - 1] != '/')
    requires forall i | 0 <= i < |x| :: x[i] != '/'
    ensures CutDir(Sep(o) + x) == o
    decreases |x|
  {
    if x == "" {
      assert Sep(o) + x == Sep(o);
      if o != "/" {
        assert (o + "/")[..|o|] == o;
      }
    } else {
      var y := x[..|x| - 1];
      assert (Sep(o) + x)[..|Sep(o) + x| - 1] == Sep(o) + y;
      CutDirJoin(o, y);
    }
  }

  lemma CutRoot()
    ensures CutDir("/") == "/"
  {
  }

  lemma CutDirNames(ns: seq<string>)
    requires Named(Dir(Root, ns))
    ensures CutDir(Render(Dir(Root, ns))) == Render(Dir(Root, if ns == [] then [] else ns[..|ns| - 1]))
  {
    hide CutDir, Sep;
    CutRoot();
    if ns != [] {
      var d := Dir(Root, ns);
      var x := ns[|ns| - 1];
      assert IsName(x);
      RootText(Parent(d).names);
      CutDirJoin(Render(Parent(d)), x);
    }
  }

  lemma {:induction false} CutUpsNames(ns: seq<string>, n: nat)
    requires Named(Dir(Root, ns))
    ensures CutUps(Render(Dir(Root, ns)), n) == Render(Dir(Root, DropLast(ns, n)))
    ensures Named(Dir(Root, DropLast(ns, n)))
    decreases n
  {
    hide CutDir, Render;
    if n > 0 {
      CutDirNames(ns);
      CutUpsNames(if ns == [] then [] else ns[..|ns| - 1], n - 1);
    }
  }

  lemma UpsSuffix(n: nat, r: string)
    requires n > 0
    ensures (Ups(n) + "/" + r)[3 * n..] == r && |Ups(n) + "/" + r| == 3 * n + |r|
  {
    hide Ups;
  }

  /** A relative place's text: its ".." part, then its names as a relative path of their own. */
  lemma {:induction false} RelText(n: nat, ns: seq<string>)
    requires Named(Dir(Rel(n), ns)) && ns != []
    ensures Render(Dir(Rel(n), ns)) == (if n == 0 then "" else Ups(n) + "/") + Render(Dir(Rel(0), ns))
    ensures Render(Dir(Rel(0), ns)) != ""
    decreases |ns|
  {
    hide Ups;
    var d := Dir(Rel(n), ns);
    var x := ns[|ns| - 1];
    assert IsName(x);
    if |ns| > 1 {
      hide Render, IsName;
      RelText(n, ns[..|ns| - 1]);
      RenderOne(d);
      RenderOne(Dir(Rel(0), ns));
      RenderEnd(Parent(d));
      RenderEnd(Parent(Dir(Rel(0), ns)));
      SepJoin(if n == 0 then "" else Ups(n) + "/", Render(Dir(Rel(0), ns[..|ns| - 1])), x);
    } else {
      hide Render, IsName;
      assert ns == [x] && [] + [x] == [x];
      RenderPush(Dir(Rel(n), []), x);
      RenderPush(Dir(Rel(0), []), x);
      BareUps(n);
      BareUps(0);
      SepJoin(if n == 0 then "" else Ups(n) + "/", "", x);
    }
  }

  lemma BareUps(n: nat)
    ensures Sep(Render(Dir(Rel(n), []))) == if n == 0 then "" else Ups(n) + "/"
  {
    hide Ups;
    UpsLen(Rel(n));
  }

  lemma RenderOne(d: Dir)
    requires d.names != []
    ensures Render(d) == Sep(Render(Parent(d))) + d.names[|d.names| - 1]
  {
  }

  lemma SepJoin(a: string, o: string, x: string)
    requires o != "" || a == "" || a[|a| - 1] == '/'
    ensures Sep(a + o) + x == a + (Sep(o) + x)
  {
  }

  lemma BelowNames(n: nat, ns: seq<string>)
    requires Named(Dir(Rel(n), ns))
    ensures Below(Render(Dir(Rel(n), ns)), n) == Render(Dir(Rel(0), ns))
    ensures Render(Dir(Rel(0), ns)) == "" <==> ns == []
  {
    hide Ups;
    if ns == [] {
      UpsLen(Rel(n));
      UpsLen(Rel(0));
    } else {
      hide Render;
      RelText(n, ns);
      if n > 0 {
        UpsSuffix(n, Render(Dir(Rel(0), ns)));
      }
    }
  }

  /** A relative path put below a directory. */
  lemma {:induction false} BelowJoin(base: seq<string>, ns: seq<string>)
    requires Named(Dir(Root, base)) && Named(Dir(Rel(0), ns)) && ns != []
    ensures Sep(Render(Dir(Root, base))) + Render(Dir(Rel(0), ns)) == Render(Dir(Root, base + ns))
    decreases |ns|
  {
    hide Sep, Render;
    var x := ns[|ns| - 1];
    var up := ns[..|ns| - 1];
    assert IsName(x);
    RenderOne(Dir(Rel(0), ns));
    RenderOne(Dir(Root, base + ns));
    assert (base + ns)[..|base + ns| - 1] == base + up;
    RenderEnd(Dir(Rel(0), up));
    RenderLen(Dir(Rel(0), up));
    if up == [] {
      assert base + up == base;
      SepNone(x);
    } else {
      BelowJoin(base, up);
      SepJoin(Sep(Render(Dir(Root, base))), Render(Dir(Rel(0), up)), x);
    }
  }

  lemma SepNone(x: string)
    ensures Sep(Ups(0)) + x == x
  {
  }

  /** What is returned when the walk ends at a place: its text, seen from the root. */
  function PlaceAnswer(at: Dir, here: Here): Answer {
    if !at.base.Rel? then
      Path(Render(at))
    else
      match here
      case Unknown(e) => Error(e)
      case Names(ns) => Path(Render(Placed(at, ns)))
  }

  predicate HereOk(here: Here) {
    here.Names? ==> Named(Dir(Root, here.names))
  }

  /** The answer is a path below the current directory that does not fit. */
  predicate TooLong(at: Dir, here: Here) {
    at.base.Rel? && here.Names? && |Render(Placed(at, here.names))| + 1 >= PATH_MAX
  }

  /** Finishing puts the current directory, less one name for each "..", in front, if it fits. */
  lemma FinishPlaces(at: Dir, here: Here)
    requires Named(at) && HereOk(here)
    ensures Finish(Render(at), if at.base.Rel? then at.base.ups else 0, HereText(here))
         == if TooLong(at, here) then Error(ENAMETOOLONG) else PlaceAnswer(at, here)
    ensures here.Names? && |Render(at)| + |HereText(here).path| + 2 < PATH_MAX ==>
              Finish(Render(at), if at.base.Rel? then at.base.ups else 0, HereText(here)) == PlaceAnswer(at, here)
    ensures here.Unknown? ==>
              Finish(Render(at), if at.base.Rel? then at.base.ups else 0, HereText(here)) == PlaceAnswer(at, here)
    ensures !at.base.Rel? ==> Finish(Render(at), 0, HereText(here)) == PlaceAnswer(at, here)
  {
    hide Render, Sep, CutUps, Below, DropLast;
    RenderLen(at);
    if at.base.Rel? && here.Names? {
      var n := at.base.ups;
      BelowNames(n, at.names);
      CutUpsNames(here.names, n);
      var base := DropLast(here.names, n);
      if at.names == [] {
        assert base + [] == base;
        assert Render(Dir(Root, base)) + "" == Render(Dir(Root, base));
      } else {
        assert Named(Dir(Rel(0), at.names));
        BelowJoin(base, at.names);
      }
    }
  }
}
