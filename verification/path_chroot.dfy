// Resolution inside a chroot: what is resolved stays below the root directory.
module PathChroot {
  import opened Limits
  import opened PathText
  import opened PathDir
  import opened PathMachine
  import opened PathWalk
  import opened PathFinal
  import opened PathProps
  import opened PathTheorems

  /** A root directory other than "/", given by its names; where links are followed it is no link and has
      no links above. */
  ghost predicate InChroot(env: Env, rn: seq<string>) {
    && rn != [] && Named(Dir(Root, rn)) && env.root == Render(Dir(Root, rn))
    && (env.follow ==> Clear(env, Dir(Root, rn)))
  }

  /** No link's contents climb. */
  ghost predicate LinksClimbNot(env: Env) {
    forall p | env.link(p).Content? :: ".." !in Comps(env.link(p).text)
  }

  lemma RootForm(env: Env, rn: seq<string>)
    requires InChroot(env, rn)
    ensures env.root != "" && env.root != "/" && env.root[0] == '/' && Comps(env.root) == rn
    ensures env.root[|env.root| - 1] != '/'
  {
    hide Clear, Render, Comps;
    RenderComps(Dir(Root, rn));
    RenderEnd(Dir(Root, rn));
    RenderLen(Dir(Root, rn));
  }

  lemma RootedLead(root: string, c: string)
    requires |root| > 1 && root[0] == '/' && root[1] != '/'
    ensures (root + c)[0] == '/' && Lead(root + c) == Root
  {
  }

  lemma RootSecond(rn: seq<string>)
    requires rn != [] && Named(Dir(Root, rn))
    ensures var o := Render(Dir(Root, rn)); |o| > 1 && o[0] == '/' && o[1] != '/'
  {
    hide Render, JoinNames, Lead, SkipSlashes, Sep;
    JoinText(Root, [], rn);
    JoinStart(rn);
    assert [] + rn == rn;
    BareRoot(Root);
    assert RenderBase(Root) == "/";
  }

  /** Contents moved below the root start with its names. */
  lemma JumpUnder(env: Env, rn: seq<string>, path: string)
    requires InChroot(env, rn) && LinksClimbNot(env) && LookAt(env, path).Jump?
    ensures var c := LookAt(env, path).text;
            && c != "" && ".." !in Comps(c)
            && (c[0] == '/' ==> Lead(c) == Root && rn <= Comps(c))
  {
    hide Clear, Render, Comps, Lead;
    RootForm(env, rn);
    var raw := env.link(path).text;
    if raw[0] == '/' {
      CompsJoin(env.root, raw);
      RootSecond(rn);
      RootedLead(env.root, raw);
      NamesNotUp(rn);
    }
  }

  lemma NamesNotUp(rn: seq<string>)
    requires Named(Dir(Root, rn))
    ensures ".." !in rn
  {
    forall x | x in rn
      ensures x != ".."
    {
      assert IsName(x);
    }
  }

  /** While the root's names are being walked nothing is a link. */
  lemma RootNoJump(env: Env, rn: seq<string>, at: seq<string>, x: string)
    requires InChroot(env, rn) && env.follow && at + [x] <= rn
    ensures NotLink(env, Sep(Render(Dir(Root, at))) + x)
  {
    hide Clear, Render, Sep, NotLink;
    RenderPush(Dir(Root, at), x);
    var k := |at| + 1;
    assert rn == (at + [x]) + rn[k..];
    ClearPrefix(env, Root, at + [x], rn[k..]);
  }

  /** What is walked, seen behind what is resolved, starts with the root's names. */
  lemma PrefixCases(rn: seq<string>, at: seq<string>, x: string, rest: seq<string>)
    requires rn <= at + ([x] + rest)
    ensures rn <= (at + [x]) + rest
    ensures at + [x] <= rn || rn <= at
  {
    assert at + ([x] + rest) == (at + [x]) + rest;
    if |rn| > |at| {
      assert rn[..|at| + 1] == at + [x];
    }
  }

  lemma {:induction false} WalkUnder(env: Env, rn: seq<string>, work: seq<string>, ends: bool, at: Dir, check: bool,
                                     cnt: nat)
    requires InChroot(env, rn) && LinksClimbNot(env) && cnt < SYMLOOP_MAX
    requires at.base == Root && ".." !in work && rn <= at.names + work
    ensures var w := Walk(env, work, ends, at, check, cnt); w.Ended? ==> w.at.base == Root && rn <= w.at.names
    decreases SYMLOOP_MAX - cnt, |work|, check
  {
    hide Clear, Render, LookAt, Sep, Comps, Ends, Lead, Up, InChroot, LinksClimbNot;
    if work != [] || check {
      var x := if work == [] then "" else work[0];
      var rest := if work == [] then [] else work[1..];
      var more := work != [] && (rest != [] || ends);
      assert work == [] || work == [x] + rest;
      if work != [] {
        PrefixCases(rn, at.names, x, rest);
      }
      var look := if Asks(env, false, check) then LookAt(env, Sep(Render(at)) + x) else Plain;
      if look.Plain? {
        if work == [] {
          WalkUnder(env, rn, [], ends, at, false, cnt);
        } else {
          WalkUnder(env, rn, rest, ends, Push(at, x), more, cnt);
        }
      } else if look.Jump? && cnt + 1 != SYMLOOP_MAX {
        if work != [] && at.names + [x] <= rn {
          RootNoJump(env, rn, at.names, x);
          assert false;
        }
        var c := look.text;
        JumpUnder(env, rn, Sep(Render(at)) + x);
        PrefixMore(rn, at.names, Comps(c), rest);
        WalkUnder(env, rn, Comps(c) + rest, if more then ends else Ends(c), StartAt(c, at),
                  check && c[0] != '/', cnt + 1);
      }
    }
  }

  lemma PrefixMore(rn: seq<string>, at: seq<string>, c: seq<string>, rest: seq<string>)
    ensures rn <= at ==> rn <= at + (c + rest)
    ensures rn <= c ==> rn <= [] + (c + rest)
  {
  }

  /** p is the root directory's path or a path below it. */
  predicate Under(root: string, p: string) {
    root <= p && (|p| == |root| || p[|root|] == '/')
  }

  lemma NamesUnder(rn: seq<string>, ns: seq<string>)
    requires rn != [] && rn <= ns && Named(Dir(Root, ns)) && Named(Dir(Root, rn))
    ensures Under(Render(Dir(Root, rn)), Render(Dir(Root, ns)))
  {
    hide Render, Sep, JoinNames;
    var rest := ns[|rn|..];
    assert rn + rest == ns;
    if rest != [] {
      JoinText(Root, rn, rest);
      RenderEnd(Dir(Root, rn));
      SepSlash(Render(Dir(Root, rn)), JoinNames(rest));
    } else {
      assert rn == ns;
    }
  }

  lemma SepSlash(o: string, r: string)
    requires o != "" && o[|o| - 1] != '/'
    ensures Under(o, Sep(o) + r)
  {
  }

  /** The root's path with more text behind it resolves to the root or to something below it. */
  lemma ResolveUnder(env: Env, rn: seq<string>, here: Here, name: string)
    requires InChroot(env, rn) && LinksClimbNot(env)
    requires HereOk(here)
    requires env.root <= name && rn <= Comps(name) && ".." !in Comps(name)
    ensures var r := Resolve(env, HereText(here), name); r.Path? ==> Under(env.root, r.path)
  {
    hide Run, Render, Finish, Lead, Comps, Ends, Walk, LookAt, Resolve, Clear, LinksClimbNot, Under;
    if Resolve(env, HereText(here), name).Path? {
      ResolvePath(env, HereText(here), name);
      var st := State(name, "", 0, false, 0);
      StartMatch(st);
      RunWalks(env, st, Dir(Rel(0), []));
      RootSecond(rn);
      RootedLead(env.root, name[|env.root|..]);
      assert env.root + name[|env.root|..] == name;
      assert [] + Comps(name) == Comps(name);
      WalkUnder(env, rn, Comps(name), Ends(name), Dir(Root, []), false, 0);
      var w := WalkText(env, name, StartDir(name), false, 0);
      NamesUnder(rn, w.at.names);
      FinishPlaces(w.at, here);
    }
  }
}
