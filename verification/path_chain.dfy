// A chain of links, each to the next: how many are followed.
module PathChain {
  import opened Limits
  import opened PathText
  import opened PathDir
  import opened PathMachine
  import opened PathWalk
  import opened PathFinal
  import opened PathProps
  import opened PathRoom
  import opened PathPlain

  /** Each of these names in the root is a link whose contents are the next name; the last is no link. */
  ghost predicate Chain(env: Env, ls: seq<string>) {
    && ls != [] && (forall i | 0 <= i < |ls| :: IsName(ls[i]))
    && (forall i | 0 <= i < |ls| - 1 :: env.link("/" + ls[i]) == Content(ls[i + 1]))
    && env.link("/" + ls[|ls| - 1]) == NoLink(EINVAL)
  }

  lemma ChainName(x: string)
    requires IsName(x)
    ensures Comps(x) == [x] && !Ends(x) && x != "" && x[0] != '/' && x != ".."
    ensures Render(Push(Dir(Root, []), x)) == Sep(Render(Dir(Root, []))) + x == "/" + x
    ensures Push(Dir(Root, []), x) == Dir(Root, [x])
  {
    RenderPush(Dir(Root, []), x);
    PieceComps(x);
  }

  /** One link of the chain: its contents are walked next, unless it was the fortieth. */
  lemma LinkStep(env: Env, x: string, c: string, cnt: nat)
    requires env.follow && IsName(x) && IsName(c) && env.link("/" + x) == Content(c) && cnt < SYMLOOP_MAX
    ensures Walk(env, [x], false, Dir(Root, []), false, cnt) ==
            if cnt + 1 == SYMLOOP_MAX then Broken(ELOOP) else Walk(env, [c], false, Dir(Root, []), false, cnt + 1)
  {
    ChainName(x);
    ChainName(c);
    hide Comps, Ends, Render, Sep, Push, IsName;
    assert [x][1..] == [] && [c] + [] == [c];
    assert LookAt(env, "/" + x) == Jump(c);
  }

  lemma LastStep(env: Env, x: string, cnt: nat)
    requires env.follow && IsName(x) && env.link("/" + x) == NoLink(EINVAL) && cnt < SYMLOOP_MAX
    ensures Walk(env, [x], false, Dir(Root, []), false, cnt) == Ended(Dir(Root, [x]))
  {
    ChainName(x);
    hide Comps, Ends, Render, Sep, Push, IsName;
    assert [x][1..] == [];
    assert LookAt(env, "/" + x) == Plain;
    assert Walk(env, [], false, Dir(Root, [x]), false, cnt) == Ended(Dir(Root, [x]));
  }

  lemma {:induction false} ChainWalk(env: Env, ls: seq<string>, cnt: nat)
    requires env.follow && Chain(env, ls) && cnt < SYMLOOP_MAX
    ensures Walk(env, [ls[0]], false, Dir(Root, []), false, cnt) ==
            if cnt + |ls| <= SYMLOOP_MAX then Ended(Dir(Root, [ls[|ls| - 1]])) else Broken(ELOOP)
    decreases |ls|
  {
    hide Walk, IsName;
    if |ls| == 1 {
      LastStep(env, ls[0], cnt);
    } else {
      LinkStep(env, ls[0], ls[1], cnt);
      if cnt + 1 < SYMLOOP_MAX {
        ChainWalk(env, ls[1..], cnt + 1);
      }
    }
  }

  /** A chain of up to 39 links is followed to its end; at the fortieth the resolver gives up. */
  lemma ChainPath(env: Env, here: Here, ls: seq<string>, m: nat)
    requires env.follow && HereOk(here) && Chain(env, ls) && ShortLinks(env, m)
    requires |ls[0]| + 1 + (if here.Names? then |HereText(here).path| else 0) + SYMLOOP_MAX * (m + 1) + 4 < PATH_MAX
    ensures Resolve(env, HereText(here), "/" + ls[0]) ==
            if |ls| - 1 < 40 then Path("/" + ls[|ls| - 1]) else Error(ELOOP)
  {
    var x, y := ls[0], ls[|ls| - 1];
    ChainName(x);
    ChainName(y);
    ChainWalk(env, ls, 0);
    hide Resolve, Walk, Comps, Ends, Render, Sep, Push, Chain, ShortLinks, IsName;
    ChainStart(x);
    ResolveRoomy(env, here, "/" + x, m);
  }

  lemma ChainStart(x: string)
    requires IsName(x)
    ensures Comps("/" + x) == [x] && !Ends("/" + x) && StartDir("/" + x) == Dir(Root, [])
  {
    ChainName(x);
    RootChar(x);
    SlashStep("/" + x);
    assert ("/" + x)[1..] == x;
  }

  lemma RootChar(x: string)
    requires IsName(x)
    ensures Lead("/" + x) == Root && x[0] != '/'
  {
  }
}
