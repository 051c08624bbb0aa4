// The recursive walk in place: one path buffer, written behind each directory and cut back again.
module NftwWalk {
  import opened FileNames
  import opened Limits
  import opened Wrappers
  import opened CStrings
  import opened NftwTree

  /** The caller's function: what it returns may depend on the calls made before. */
  type Caller = (seq<Call>, Call) -> int

  /** Calling back until a call returns something or the walk gives up: what it returns, and the calls
      made, after those before. */
  function Calls(fn: Caller, before: seq<Call>, ds: seq<Deed>): (r: (int, seq<Call>))
    decreases |ds|
  {
    if ds == [] then
      (0, [])
    else if ds[0].GiveUp? then
      (-1, [])
    else if fn(before, ds[0].call) != 0 then
      (fn(before, ds[0].call), [ds[0].call])
    else
      var (ret, made) := Calls(fn, before + [ds[0].call], ds[1..]);
      (ret, [ds[0].call] + made)
  }

  lemma {:induction false} CallsJoin(fn: Caller, before: seq<Call>, a: seq<Deed>, b: seq<Deed>)
    ensures var x := Calls(fn, before, a); var y := Calls(fn, before + x.1, b);
            Calls(fn, before, a + b) == if x.0 != 0 then x else (y.0, x.1 + y.1)
    decreases |a|
  {
    if a == [] {
      assert a + b == b && before + [] == before;
      assert [] + Calls(fn, before, b).1 == Calls(fn, before, b).1;
    } else {
      assert (a + b)[1..] == a[1..] + b;
      if a[0].Visit? && fn(before, a[0].call) == 0 {
        var c := a[0].call;
        CallsJoin(fn, before + [c], a[1..], b);
        JoinCalls(before, [c], Calls(fn, before + [c], a[1..]).1);
        JoinCalls([c], Calls(fn, before + [c], a[1..]).1, Calls(fn, before + Calls(fn, before, a).1, b).1);
      }
    }
  }

  /** A history of directories, the nearest first. */
  datatype History = Top | Chain(dev: int, ino: int, level: nat, base: nat, chain: History)

  function Chained(h: History): (above: seq<Above>) {
    match h
    case Top => []
    case Chain(dev, ino, _, _, chain) => Chained(chain) + [Above(dev, ino)]
  }

  ghost predicate HistoryOk(h: History) {
    h.Chain? ==> h.level + 1 == |Chained(h)| && HistoryOk(h.chain)
  }

  /** File names are texts without slashes. */
  ghost predicate NamesOk(env: Env) {
    forall p, i | env.open(p).Names? && 0 <= i < |env.open(p).names| ::
      IsName(env.open(p).names[i])
  }

  /** Whether a directory is one of those on the way down. */
  method InHistory(h: History, dev: int, ino: int) returns (found: bool)
    ensures found == (Above(dev, ino) in Chained(h))
  {
    var g := h;
    while g.Chain?
      invariant Above(dev, ino) in Chained(h) <==> Above(dev, ino) in Chained(g)
      decreases g
    {
      if g.dev == dev && g.ino == ino {
        return true;
      }
      g := g.chain;
    }
    return false;
  }

  /** The base of a root: the start of its last component. */
  method FindBase(path: string) returns (k: nat)
    ensures k == RootBase(path)
  {
    var j := if path != "" && path[|path| - 1] == '/' then |path| - 1 else |path|;
    k := j;
    while k > 0 && k < |path| && path[k] == '/'
      invariant k <= j && SlashBack(path, k) == SlashBack(path, j)
    {
      k := k - 1;
    }
    ghost var m := k;
    while k > 0 && path[k - 1] != '/'
      invariant k <= m && CompStart(path, k) == CompStart(path, m)
    {
      k := k - 1;
    }
  }

  class Walker {
    const env: Env
    const fl: Flags
    const fn: Caller
    const path: array<char>
    /** The calls made so far. */
    var calls: seq<Call>

    constructor (env: Env, fl: Flags, fn: Caller, path: array<char>)
      ensures this.env == env && this.fl == fl && this.fn == fn && this.path == path && calls == []
    {
      this.env, this.fl, this.fn, this.path, calls := env, fl, fn, path, [];
    }

    method CallBack(c: Call) returns (r: int)
      modifies this`calls
      ensures r == fn(old(calls), c) && calls == old(calls) + [c]
    {
      r := fn(calls, c);
      calls := calls + [c];
    }

    /** A slash and a name behind the directory's path, its slash not doubled. */
    method PutName(p: string, name: string)
      requires path.Length == PATH_MAX + 1 && |name| + |p| < PATH_MAX && NoNul(p) && NoNul(name)
      requires path[..|p|] == p
      modifies path
      ensures Holds(path, DirText(p) + name)
    {
      hide DirText, NoNul;
      var j := PutSlash(p);
      var i := 0;
      while i < |name|
        invariant 0 <= i <= |name| && path[..j + 1] == DirText(p) && path[j + 1..j + 1 + i] == name[..i]
      {
        path[j + 1 + i] := name[i];
        i := i + 1;
      }
      path[j + 1 + |name|] := NUL;
      assert path[..j + 1 + |name|] == path[..j + 1] + path[j + 1..j + 1 + |name|];
      DirNoNul(p, name);
    }

    /** The slash behind the directory, if it has none; where it stands. */
    method PutSlash(p: string) returns (j: nat)
      requires |p| < path.Length && path[..|p|] == p
      modifies path
      ensures j < path.Length && path[..j + 1] == DirText(p) && j <= |p|
    {
      var l := |p|;
      j := if l > 0 && path[l - 1] == '/' then l - 1 else l;
      assert l > 0 ==> path[l - 1] == path[..l][l - 1];
      path[j] := '/';
    }

    /** Cut the path back to the directory's. */
    method CutBack(p: string, ghost below: string)
      requires Holds(path, below) && p <= below && NoNul(p) && path.Length == PATH_MAX + 1
      modifies path
      ensures Holds(path, p)
    {
      assert path[..|p|] == path[..|below|][..|p|];
      path[|p|] := NUL;
    }

    /** The walk below the path in the buffer. */
    method DoNftw(limit: nat, h: History, ghost p0: string) returns (r: int)
      requires Holds(path, p0) && |p0| <= PATH_MAX && path.Length == PATH_MAX + 1 && HistoryOk(h) && NamesOk(env)
      modifies path, this`calls
      ensures Reported(fn, fl, Plan(env, fl, p0, limit, Chained(h), BaseOf(h, p0)), r, old(calls), calls)
      ensures r == 0 ==> Holds(path, p0)
      decreases limit, 4
    {
      hide Look, Typed, NamesOk, NoNul, CText, Pre, Post, Calls, HistoryOk, PlanAll;
      HoldsText(path, p0);
      var p := CText(path[..]);
      LevelOf(h);
      match Look(env, fl, p)
      case None =>
        BlockedCalls(fn, fl, calls);
        assert calls + [] == calls;
        return -1;
      case Some(found) =>
        var (t0, dev, ino) := found;
        if fl.mount && h.Chain? && t0 != FTW_NS && dev != h.dev {
          SkippedCalls(fn, fl, calls);
          assert calls + [] == calls;
          return 0;
        }
        r := Enter(limit, h, p, t0, dev, ino);
    }

    /** A node that is not left out. */
    method Enter(limit: nat, h: History, p: string, t0: Type, dev: int, ino: int) returns (r: int)
      requires Holds(path, p) && |p| <= PATH_MAX && path.Length == PATH_MAX + 1 && HistoryOk(h) && NamesOk(env)
      requires Look(env, fl, p) == Some((t0, dev, ino))
      requires !(fl.mount && h.Chain? && t0 != FTW_NS && dev != h.dev)
      modifies path, this`calls
      ensures Reported(fn, fl, Plan(env, fl, p, limit, Chained(h), BaseOf(h, p)), r, old(calls), calls)
      ensures r == 0 ==> Holds(path, p)
      decreases limit, 3
    {
      hide Look, Typed, NamesOk, NoNul, Pre, Post, Calls, HistoryOk, DirText, PlanAll, Plan, KidsPlan, Holds;
      LevelOf(h);
      var level: nat, base: nat := 0, 0;
      if h.Chain? {
        level, base := h.level + 1, h.base;
      } else {
        base := FindBase(p);
      }
      var here := Chain(dev, ino, level, |DirText(p)|, h);
      var call := Call(p, Typed(env, t0, p), level, base);
      EnterPlan(env, fl, p, limit, h, t0, dev, ino);
      HereOk(here);
      if !fl.depth {
        r := EnterPre(limit, here, p, call);
      } else {
        r := EnterPost(limit, here, p, call);
      }
    }

    /** A node called back before what is in it. */
    method EnterPre(limit: nat, here: History, p: string, call: Call) returns (r: int)
      requires Holds(path, p) && |p| <= PATH_MAX && path.Length == PATH_MAX + 1 && HistoryOk(here) && NamesOk(env)
      requires here.Chain? && !fl.depth && here.base == |DirText(p)| && call.path == p
      modifies path, this`calls
      ensures Reported(fn, fl, NodePlan(env, fl, limit, here, call), r, old(calls), calls)
      ensures r == 0 ==> Holds(path, p)
      decreases limit, 2
    {
      hide NamesOk, NoNul, Pre, Post, Calls, HistoryOk, DirText, PlanAll, KidsPlan, Holds;
      ghost var kids := KidsPlan(env, fl, p, call.typ, limit, Chained(here));
      PreNode(fn, calls, call, true, []);
      PreNode(fn, calls, call, false, kids);
      ghost var before := calls;
      r := CallBack(call);
      var again := InHistory(here.chain, here.dev, here.ino);
      if r != 0 || again {
        return;
      }
      r := Kids(limit, here, p, call.typ);
      JoinCalls(before, [call], Calls(fn, before + [call], OrderAll(fl, kids)).1);
    }

    /** A node called back after what is in it. */
    method EnterPost(limit: nat, here: History, p: string, call: Call) returns (r: int)
      requires Holds(path, p) && |p| <= PATH_MAX && path.Length == PATH_MAX + 1 && HistoryOk(here) && NamesOk(env)
      requires here.Chain? && fl.depth && here.base == |DirText(p)| && call.path == p
      modifies path, this`calls
      ensures Reported(fn, fl, NodePlan(env, fl, limit, here, call), r, old(calls), calls)
      ensures r == 0 ==> Holds(path, p)
      decreases limit, 2
    {
      hide NamesOk, NoNul, Pre, Post, Calls, HistoryOk, DirText, PlanAll, KidsPlan, Holds;
      PostAgain(call);
      NoCalls(fn, calls);
      ghost var before := calls;
      assert before + [] == before;
      var again := InHistory(here.chain, here.dev, here.ino);
      if again {
        return 0;
      }
      ghost var kids := KidsPlan(env, fl, p, call.typ, limit, Chained(here));
      PostNode(fn, before, call, kids);
      r := Kids(limit, here, p, call.typ);
      if r != 0 {
        return;
      }
      r := CallBack(call);
      JoinCalls(before, Calls(fn, before, OrderAll(fl, kids)).1, [call]);
    }

    /** What is in a directory that is to be entered. */
    method Kids(limit: nat, here: History, p: string, typ: Type) returns (r: int)
      requires Holds(path, p) && |p| <= PATH_MAX && path.Length == PATH_MAX + 1 && HistoryOk(here) && NamesOk(env)
      requires here.Chain? && here.base == |DirText(p)|
      modifies path, this`calls
      ensures ReportedAll(fn, fl, KidsPlan(env, fl, p, typ, limit, Chained(here)), r, old(calls), calls)
      ensures r == 0 ==> Holds(path, p)
      decreases limit, 1
    {
      hide NamesOk, NoNul, PreAll, PostAll, Calls, HistoryOk, DirText, PlanAll;
      NoCalls(fn, calls);
      NoTrees(fl);
      if !(IsDirType(typ) && limit > 0) {
        assert calls + [] == calls;
        return 0;
      }
      match env.open(p)
      case Refused(_) =>
        BlockedOnly(fn, fl, calls);
        assert calls + [] == calls;
        return -1;
      case Names(names) =>
        ListedOk(env, p);
        ghost var below;
        r, below := EachName(names, limit - 1, here, p);
        if r == 0 {
          CutBack(p, below);
        }
    }

    /** Each name of a directory in turn. */
    method EachName(names: seq<string>, limit: nat, here: History, p: string) returns (r: int, ghost below: string)
      requires Holds(path, p) && |p| <= PATH_MAX && path.Length == PATH_MAX + 1 && HistoryOk(here) && NamesOk(env)
      requires here.Chain? && here.base == |DirText(p)| && AllNames(names)
      modifies path, this`calls
      ensures ReportedAll(fn, fl, PlanAll(env, fl, p, Real(names), limit, Chained(here)), r, old(calls), calls)
      ensures r == 0 ==> Holds(path, below) && p <= below
      decreases limit, 5
    {
      hide NamesOk, PreAll, PostAll, Calls, HistoryOk, DirText, PlanAll, Plan, Real, NoNul, Chained;
      below := p;
      ghost var done: seq<Tree> := [];
      ghost var total := PlanAll(env, fl, p, Real(names), limit, Chained(here));
      ghost var before := calls;
      NoCalls(fn, calls);
      NoTrees(fl);
      HoldsNoNul(path, p);
      assert before + [] == calls && names[0..] == names && [] + total == total;
      var i := 0;
      while i < |names|
        invariant i <= |names| && Holds(path, below) && p <= below
        invariant total == done + PlanAll(env, fl, p, Real(names[i..]), limit, Chained(here))
        invariant Calls(fn, before, OrderAll(fl, done)).0 == 0
        invariant calls == before + Calls(fn, before, OrderAll(fl, done)).1
      {
        assert names[i..][1..] == names[i + 1..];
        RealStep(names[i..]);
        if !IsDot(names[i]) {
          ghost var rest := PlanAll(env, fl, p, Real(names[i + 1..]), limit, Chained(here));
          PlanStep(env, fl, p, names[i], Real(names[i + 1..]), limit, Chained(here), done);
          if |names[i]| + |p| >= PATH_MAX {
            OrderMore(fn, fl, before, done, Blocked, rest);
            BlockedCalls(fn, fl, calls);
            JoinCalls(before, Calls(fn, before, OrderAll(fl, done)).1, []);
            return -1, below;
          }
          PrefixOf(path, p, below);
          NameFits(names, i);
          PutName(p, names[i]);
          below := DirText(p) + names[i];
          BelowFits(p, names[i]);
          ghost var here0 := calls;
          r := DoNftw(limit, here, below);
          ghost var one := Plan(env, fl, below, limit, Chained(here), |DirText(p)|);
          OrderMore(fn, fl, before, done, one, rest);
          JoinCalls(before, Calls(fn, before, OrderAll(fl, done)).1, Calls(fn, here0, Order(fl, one)).1);
          done := done + [one];
          if r != 0 {
            return r, below;
          }
        }
        i := i + 1;
      }
      assert names[|names|..] == [];
      PlanEnd(env, fl, p, limit, Chained(here), done);
      return 0, below;
    }
  }

  /** What calling back for a plan means: its nodes in order, up to the first that stops it. */
  ghost predicate Reported(fn: Caller, fl: Flags, plan: Tree, r: int, before: seq<Call>, after: seq<Call>) {
    r == Calls(fn, before, Order(fl, plan)).0 && after == before + Calls(fn, before, Order(fl, plan)).1
  }

  ghost predicate ReportedAll(fn: Caller, fl: Flags, plans: seq<Tree>, r: int, before: seq<Call>,
                              after: seq<Call>) {
    r == Calls(fn, before, OrderAll(fl, plans)).0 && after == before + Calls(fn, before, OrderAll(fl, plans)).1
  }

  function BaseOf(h: History, p: string): nat {
    if h.Chain? then h.base else RootBase(p)
  }

  function NodePlan(env: Env, fl: Flags, limit: nat, here: History, call: Call): Tree
    requires here.Chain?
  {
    if Above(here.dev, here.ino) in Chained(here.chain) then
      Node(call, true, [])
    else
      Node(call, false, KidsPlan(env, fl, call.path, call.typ, limit, Chained(here)))
  }

  lemma EnterPlan(env: Env, fl: Flags, p: string, limit: nat, h: History, t0: Type, dev: int, ino: int)
    requires Look(env, fl, p) == Some((t0, dev, ino)) && HistoryOk(h)
    requires !(fl.mount && h.Chain? && t0 != FTW_NS && dev != h.dev)
    ensures var level := if h.Chain? then h.level + 1 else 0;
            Plan(env, fl, p, limit, Chained(h), BaseOf(h, p))
            == NodePlan(env, fl, limit, Chain(dev, ino, level, |DirText(p)|, h),
                        Call(p, Typed(env, t0, p), level, BaseOf(h, p)))
  {
    hide Look, Typed, PlanAll, DirText, RootBase;
    LevelOf(h);
  }

  lemma LevelOf(h: History)
    requires HistoryOk(h)
    ensures h.Chain? ==> h.level + 1 == |Chained(h)| && Chained(h)[|Chained(h)| - 1] == Above(h.dev, h.ino)
    ensures h == Top ==> Chained(h) == []
  {
  }

  lemma HereOk(here: History)
    requires here.Chain? && HistoryOk(here.chain)
    requires here.level == if here.chain.Chain? then here.chain.level + 1 else 0
    ensures HistoryOk(here)
  {
  }

  lemma NoCalls(fn: Caller, before: seq<Call>)
    ensures Calls(fn, before, []) == (0, [])
  {
  }

  lemma NoTrees(fl: Flags)
    ensures OrderAll(fl, []) == []
  {
  }

  lemma BlockedCalls(fn: Caller, fl: Flags, before: seq<Call>)
    ensures Calls(fn, before, Order(fl, Blocked)) == (-1, [])
  {
  }

  lemma BlockedOnly(fn: Caller, fl: Flags, before: seq<Call>)
    ensures Calls(fn, before, OrderAll(fl, [Blocked])) == (-1, [])
  {
    OrderOne(fl, Blocked);
    BlockedCalls(fn, fl, before);
  }

  lemma SkippedCalls(fn: Caller, fl: Flags, before: seq<Call>)
    ensures Calls(fn, before, Order(fl, Skipped)) == (0, [])
  {
  }

  lemma PreNode(fn: Caller, before: seq<Call>, call: Call, again: bool, kids: seq<Tree>)
    ensures var c := Calls(fn, before + [call], PreAll(kids)); var r := fn(before, call);
            Calls(fn, before, Pre(Node(call, again, kids))) == if r != 0 then (r, [call]) else (c.0, [call] + c.1)
    ensures Calls(fn, before + [call], PreAll([])) == (0, [])
  {
    assert PreAll([]) == [];
    hide PreAll;
    assert ([Visit(call)] + PreAll(kids))[1..] == PreAll(kids);
  }

  lemma PostNode(fn: Caller, before: seq<Call>, call: Call, kids: seq<Tree>)
    ensures var c := Calls(fn, before, PostAll(kids));
            Calls(fn, before, Post(Node(call, false, kids))) ==
              if c.0 != 0 then c else (fn(before + c.1, call), c.1 + [call])
  {
    hide PostAll;
    hide Calls;
    CallsJoin(fn, before, PostAll(kids), [Visit(call)]);
    OneCall(fn, before + Calls(fn, before, PostAll(kids)).1, call);
  }

  lemma OneCall(fn: Caller, before: seq<Call>, call: Call)
    ensures Calls(fn, before, [Visit(call)]) == (fn(before, call), [call])
  {
    assert [Visit(call)][1..] == [] && [call] + [] == [call];
    NoCalls(fn, before + [call]);
  }

  lemma PostAgain(call: Call)
    ensures Post(Node(call, true, [])) == []
  {
  }

  lemma JoinCalls(a: seq<Call>, b: seq<Call>, c: seq<Call>)
    ensures a + b + c == a + (b + c)
    ensures a + [] == a && [] + a == a
  {
  }

  predicate AllNames(names: seq<string>) {
    forall i | 0 <= i < |names| :: IsName(names[i])
  }

  lemma ListedOk(env: Env, p: string)
    requires NamesOk(env) && env.open(p).Names?
    ensures AllNames(env.open(p).names)
  {
  }

  lemma NameFits(names: seq<string>, i: nat)
    requires AllNames(names) && i < |names|
    ensures NoNul(names[i])
  {
  }

  lemma HoldsNoNul(path: array<char>, p: string)
    requires Holds(path, p)
    ensures NoNul(p)
  {
  }

  lemma PrefixOf(path: array<char>, p: string, below: string)
    requires Holds(path, below) && p <= below
    ensures |p| < path.Length && path[..|p|] == p
  {
    assert path[..|p|] == path[..|below|][..|p|];
  }

  lemma BelowFits(p: string, name: string)
    requires |name| + |p| < PATH_MAX
    ensures |DirText(p) + name| <= PATH_MAX && p <= DirText(p) + name
  {
  }

  lemma RealStep(names: seq<string>)
    requires names != []
    ensures Real(names) == if IsDot(names[0]) then Real(names[1..]) else [names[0]] + Real(names[1..])
  {
    assert [] + Real(names[1..]) == Real(names[1..]);
  }

  lemma PlanStep(env: Env, fl: Flags, p: string, name: string, rest: seq<string>, limit: nat, above: seq<Above>,
                 done: seq<Tree>)
    ensures var one := if |name| + |p| >= PATH_MAX then Blocked
                       else Plan(env, fl, DirText(p) + name, limit, above, |DirText(p)|);
            done + PlanAll(env, fl, p, [name] + rest, limit, above)
            == (done + [one]) + PlanAll(env, fl, p, rest, limit, above)
  {
    hide Plan, DirText;
    assert ([name] + rest)[1..] == rest;
  }

  lemma PlanEnd(env: Env, fl: Flags, p: string, limit: nat, above: seq<Above>, done: seq<Tree>)
    ensures Real([]) == [] && done + PlanAll(env, fl, p, Real([]), limit, above) == done
  {
  }

  lemma {:induction false} OrderJoin(fl: Flags, a: seq<Tree>, b: seq<Tree>)
    ensures OrderAll(fl, a + b) == OrderAll(fl, a) + OrderAll(fl, b)
    decreases |a|
  {
    hide Pre, Post;
    if a == [] {
      assert a + b == b;
    } else {
      assert (a + b)[1..] == a[1..] + b;
      OrderJoin(fl, a[1..], b);
    }
  }

  lemma OrderMore(fn: Caller, fl: Flags, before: seq<Call>, done: seq<Tree>, t: Tree, rest: seq<Tree>)
    ensures var c := Calls(fn, before, OrderAll(fl, done)); var d := Calls(fn, before + c.1, Order(fl, t));
            && (c.0 == 0 ==> Calls(fn, before, OrderAll(fl, done + [t])) == (d.0, c.1 + d.1))
            && (c.0 == 0 && d.0 != 0 ==> Calls(fn, before, OrderAll(fl, (done + [t]) + rest)) == (d.0, c.1 + d.1))
  {
    hide Calls, OrderAll, Pre, Post;
    OrderOne(fl, t);
    OrderJoin(fl, done, [t]);
    CallsJoin(fn, before, OrderAll(fl, done), Order(fl, t));
    OrderJoin(fl, done + [t], rest);
    CallsJoin(fn, before, OrderAll(fl, done + [t]), OrderAll(fl, rest));
  }

  lemma OrderOne(fl: Flags, t: Tree)
    ensures OrderAll(fl, [t]) == Order(fl, t)
  {
    hide Pre, Post;
    assert [t][1..] == [];
    NoTrees(fl);
  }

  lemma DirNoNul(p: string, name: string)
    requires NoNul(p) && NoNul(name)
    ensures NoNul(DirText(p) + name) && p <= DirText(p)
  {
  }

  /** nftw: the whole walk from a path, in a buffer of its own. */
  method Nftw(env: Env, fl: Flags, fn: Caller, path: string, fdLimit: int)
    returns (r: int, calls: seq<Call>)
    requires NamesOk(env) && NoNul(path)
    ensures fdLimit <= 0 ==> r == 0 && calls == []
    ensures fdLimit > 0 && |path| > PATH_MAX ==> r == -1 && calls == []
    ensures fdLimit > 0 && |path| <= PATH_MAX ==>
              Reported(fn, fl, Plan(env, fl, path, fdLimit, [], RootBase(path)), r, [], calls)
  {
    hide Reported, Plan, RootBase, NoNul;
    if fdLimit <= 0 {
      return 0, [];
    }
    if |path| > PATH_MAX {
      return -1, [];
    }
    var pathbuf := new char[PATH_MAX + 1];
    var i := 0;
    while i < |path|
      invariant 0 <= i <= |path| && pathbuf[..i] == path[..i]
    {
      pathbuf[i] := path[i];
      i := i + 1;
    }
    pathbuf[|path|] := NUL;
    var walk := new Walker(env, fl, fn, pathbuf);
    r := walk.DoNftw(fdLimit, Top, path);
    calls := walk.calls;
  }

  /** The nodes called back by the first of a list of deeds, if none of them gives up. */
  function Visits(ds: seq<Deed>): (cs: seq<Call>) {
    if ds == [] then [] else (if ds[0].Visit? then [ds[0].call] else []) + Visits(ds[1..])
  }

  /** No deed gives up, and every call, after those before it, returns 0. */
  predicate AllZero(fn: Caller, before: seq<Call>, ds: seq<Deed>) {
    forall i | 0 <= i < |ds| :: ds[i].Visit? && fn(before + Visits(ds[..i]), ds[i].call) == 0
  }

  lemma AllZeroStep(fn: Caller, before: seq<Call>, ds: seq<Deed>)
    requires ds != [] && ds[0].Visit?
    ensures AllZero(fn, before, ds) <==> fn(before, ds[0].call) == 0 && AllZero(fn, before + [ds[0].call], ds[1..])
  {
    var c := ds[0].call;
    assert before + Visits(ds[..0]) == before;
    forall i | 0 < i < |ds|
      ensures before + Visits(ds[..i]) == before + [c] + Visits(ds[1..][..i - 1]) && ds[1..][i - 1] == ds[i]
    {
      assert ds[..i][1..] == ds[1..][..i - 1];
    }
    if AllZero(fn, before, ds) {
      assert fn(before + Visits(ds[..0]), ds[0].call) == 0;
      forall i | 0 <= i < |ds[1..]|
        ensures ds[1..][i].Visit? && fn(before + [c] + Visits(ds[1..][..i]), ds[1..][i].call) == 0
      {
        assert ds[i + 1].Visit? && fn(before + Visits(ds[..i + 1]), ds[i + 1].call) == 0;
      }
    }
    if fn(before, c) == 0 && AllZero(fn, before + [c], ds[1..]) {
      forall i | 0 <= i < |ds|
        ensures ds[i].Visit? && fn(before + Visits(ds[..i]), ds[i].call) == 0
      {
        if i > 0 {
          assert ds[1..][i - 1].Visit? && fn(before + [c] + Visits(ds[1..][..i - 1]), ds[1..][i - 1].call) == 0;
        }
      }
    }
  }

  lemma {:induction false} CallsAll(fn: Caller, before: seq<Call>, ds: seq<Deed>)
    ensures var c := Calls(fn, before, ds);
            && (c.0 == 0 <==> AllZero(fn, before, ds)) && (c.0 == 0 ==> |c.1| == |ds|)
            && |c.1| <= |ds| && forall i | 0 <= i < |c.1| :: ds[i] == Visit(c.1[i])
    decreases |ds|
  {
    hide AllZero, Visits;
    if ds != [] {
      if ds[0].Visit? {
        AllZeroStep(fn, before, ds);
        if fn(before, ds[0].call) == 0 {
          var more := Calls(fn, before + [ds[0].call], ds[1..]).1;
          CallsAll(fn, before + [ds[0].call], ds[1..]);
          forall i | 0 <= i < |more| + 1
            ensures ds[i] == Visit(([ds[0].call] + more)[i])
          {
            assert i > 0 ==> ds[i] == ds[1..][i - 1];
          }
        }
      } else if AllZero(fn, before, ds) {
        FirstZero(fn, before, ds);
        assert false;
      }
    } else {
      NoneZero(fn, before);
    }
  }

  lemma FirstZero(fn: Caller, before: seq<Call>, ds: seq<Deed>)
    requires ds != [] && AllZero(fn, before, ds)
    ensures ds[0].Visit?
  {
  }

  lemma NoneZero(fn: Caller, before: seq<Call>)
    ensures AllZero(fn, before, [])
  {
  }

  /** Why a walk stopped: the last call returned that, after all before it returned 0; or they all did, and
      the next node cannot be looked at. */
  predicate Stopped(fn: Caller, ds: seq<Deed>, r: int, calls: seq<Call>) {
    || (calls != [] && fn(calls[..|calls| - 1], calls[|calls| - 1]) == r && NoneSpoke(fn, calls[..|calls| - 1]))
    || (r == -1 && NoneSpoke(fn, calls) && |calls| < |ds| && ds[|calls|] == GiveUp)
  }

  predicate NoneSpoke(fn: Caller, calls: seq<Call>) {
    forall i | 0 <= i < |calls| :: fn(calls[..i], calls[i]) == 0
  }

  lemma {:induction false} CallsStop(fn: Caller, before: seq<Call>, ds: seq<Deed>)
    requires NoneSpoke(fn, before) && Calls(fn, before, ds).0 != 0
    ensures var (r, made) := Calls(fn, before, ds); var calls := before + made;
            || (made != [] && fn(calls[..|calls| - 1], calls[|calls| - 1]) == r && NoneSpoke(fn, calls[..|calls| - 1]))
            || (r == -1 && NoneSpoke(fn, calls) && |made| < |ds| && ds[|made|] == GiveUp)
    decreases |ds|
  {
    if ds[0].Visit? {
      var c := ds[0].call;
      assert (before + [c])[..|before|] == before;
      if fn(before, c) == 0 {
        assert forall i | 0 <= i < |before| :: (before + [c])[..i] == before[..i];
        CallsStop(fn, before + [c], ds[1..]);
        var made := Calls(fn, before + [c], ds[1..]).1;
        assert before + ([c] + made) == (before + [c]) + made;
      }
    } else {
      assert before + [] == before;
    }
  }

  lemma StoppedWhy(fn: Caller, ds: seq<Deed>, r: int, calls: seq<Call>)
    requires Calls(fn, [], ds) == (r, calls) && r != 0
    ensures Stopped(fn, ds, r, calls)
  {
    hide Calls;
    CallsStop(fn, [], ds);
    assert [] + calls == calls;
  }

  /** The calls made are always the first nodes of the order; the walk returns 0 exactly when none is
      blocked and every call returns 0, and then they are all. */
  lemma ZeroIsAll(fn: Caller, fl: Flags, plan: Tree, r: int, calls: seq<Call>)
    requires Reported(fn, fl, plan, r, [], calls)
    ensures var ds := Order(fl, plan);
            && |calls| <= |ds| && (forall i | 0 <= i < |calls| :: ds[i] == Visit(calls[i]))
            && (r == 0 <==> AllZero(fn, [], ds))
            && (r == 0 ==> |calls| == |ds|)
            && (r != 0 ==> Stopped(fn, ds, r, calls))
  {
    hide Order, Calls, Stopped, AllZero;
    assert [] + Calls(fn, [], Order(fl, plan)).1 == Calls(fn, [], Order(fl, plan)).1;
    if r != 0 {
      StoppedWhy(fn, Order(fl, plan), r, calls);
    }
    CallsAll(fn, [], Order(fl, plan));
  }
}
