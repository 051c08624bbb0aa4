// What the resolver answers, said of the answers readlink gives and of names on paths alone: without
// links, past what is missing, at an error, and through one link.
module PathPlain {
  import opened Limits
  import opened PathText
  import opened PathDir
  import opened PathMachine
  import opened PathWalk
  import opened PathFinal
  import opened PathProps
  import opened PathTheorems
  import opened PathRoom
  import opened PathChroot

  // ---- the pieces of a path

  function Slashed(ps: seq<string>): string
    requires ps != []
  {
    if |ps| == 1 then ps[0] else ps[0] + "/" + Slashed(ps[1..])
  }

  function Kept(ps: seq<string>): seq<string> {
    if ps == [] then [] else (if ps[0] == "" || ps[0] == "." then [] else [ps[0]]) + Kept(ps[1..])
  }

  predicate NoSlash(x: string) {
    forall i | 0 <= i < |x| :: x[i] != '/'
  }

  /** The components of a path are its pieces between slashes, empty ones and "." left out. */
  lemma {:induction false} CompsAre(ps: seq<string>)
    requires ps != [] && forall k | 0 <= k < |ps| :: NoSlash(ps[k])
    ensures Comps(Slashed(ps)) == Kept(ps)
    decreases |ps|
  {
    var x := ps[0];
    PieceComps(x);
    assert Kept(ps[1..]) == [] || |ps| > 1;
    if |ps| > 1 {
      CompsAre(ps[1..]);
      hide Comps;
      var rest := "/" + Slashed(ps[1..]);
      assert Slashed(ps) == x + rest;
      CompsJoin(x, rest);
      SlashStep(rest);
      assert rest[1..] == Slashed(ps[1..]);
    }
  }

  lemma PieceComps(x: string)
    requires NoSlash(x)
    ensures Comps(x) == if x == "" || x == "." then [] else [x]
  {
    PieceAt(x, |x|);
    if x != "" {
      PieceStep(x);
      assert x[..|x|] == x && x[|x|..] == "";
      CompsEmpty();
    }
  }

  // ---- without links

  /** Names one after the other, ".." going back one, from `at` on. */
  function Reached(at: seq<string>, work: seq<string>): seq<string>
    decreases |work|
  {
    if work == [] then at
    else if work[0] == ".." then Reached(if at == [] then [] else at[..|at| - 1], work[1..])
    else Reached(at + [work[0]], work[1..])
  }

  /** The last name taken off. */
  function Less(ns: seq<string>): seq<string> {
    if ns == [] then [] else ns[..|ns| - 1]
  }

  /** Wherever one of the pieces, or nothing, is looked up, there is no link. */
  ghost predicate Bare(env: Env, work: seq<string>) {
    forall o: string, y: string | (o == "" || o[|o| - 1] == '/') && (y == "" || y in work) :: NotLink(env, o + y)
  }

  lemma {:induction false} DropMore(ns: seq<string>, n: nat)
    ensures DropLast(ns, n + 1) == Less(DropLast(ns, n))
    decreases n
  {
    if n > 0 {
      DropMore(Less(ns), n - 1);
    }
  }

  lemma PlacedUp(at: Dir, cwd: seq<string>)
    ensures Placed(Up(at), cwd).names == Less(Placed(at, cwd).names)
    ensures Up(at).base.Rel? <==> at.base.Rel?
    ensures !at.base.Rel? ==> Up(at).base == at.base
  {
    hide DropLast;
    if at.base.Rel? && at.names == [] {
      DropMore(cwd, at.base.ups);
      assert DropLast(cwd, at.base.ups) + [] == DropLast(cwd, at.base.ups);
      assert DropLast(cwd, at.base.ups + 1) + [] == DropLast(cwd, at.base.ups + 1);
    } else if at.base.Rel? {
      var base := DropLast(cwd, at.base.ups);
      assert (base + at.names)[..|base + at.names| - 1] == base + at.names[..|at.names| - 1];
    }
  }

  lemma PlacedPush(at: Dir, cwd: seq<string>, x: string)
    ensures Placed(Push(at, x), cwd).names == Placed(at, cwd).names + [x]
  {
    hide DropLast;
    if at.base.Rel? {
      assert DropLast(cwd, at.base.ups) + (at.names + [x]) == DropLast(cwd, at.base.ups) + at.names + [x];
    }
  }

  lemma BareLess(env: Env, work: seq<string>)
    requires Bare(env, work) && work != []
    ensures Bare(env, work[1..])
  {
  }

  lemma BareAt(env: Env, work: seq<string>, at: Dir, x: string)
    requires Bare(env, work) && (x == "" || x in work)
    ensures NotLink(env, Sep(Render(at)) + x)
  {
    hide Render, NotLink;
  }

  /** Where nothing looked up is a link the walk goes from name to name. */
  lemma {:induction false} BareWalk(env: Env, work: seq<string>, ends: bool, at: Dir, check: bool, cnt: nat,
                                    cwd: seq<string>)
    requires cnt < SYMLOOP_MAX && Bare(env, work)
    ensures var w := Walk(env, work, ends, at, check, cnt);
            && w.Ended? && (w.at.base.Rel? <==> at.base.Rel?) && (!at.base.Rel? ==> w.at.base == at.base)
            && Placed(w.at, cwd).names == Reached(Placed(at, cwd).names, work)
    decreases |work|, check
  {
    hide Bare, Render, LookAt, Sep, Placed, Up, Push, NotLink;
    if work == [] {
      if check {
        BareAt(env, work, at, "");
        BareWalk(env, [], ends, at, false, cnt, cwd);
      }
    } else {
      var x := work[0];
      var rest := work[1..];
      BareLess(env, work);
      BareAt(env, work, at, x);
      if x == ".." {
        PlacedUp(at, cwd);
        BareWalk(env, rest, ends, Up(at), check, cnt, cwd);
        BareWalk(env, rest, ends, Up(at), false, cnt, cwd);
      } else {
        PlacedPush(at, cwd, x);
        assert Push(at, x).base == at.base by {
          PushBase(at, x);
        }
        BareWalk(env, rest, ends, Push(at, x), rest != [] || ends, cnt, cwd);
      }
    }
  }

  lemma PushBase(at: Dir, x: string)
    ensures Push(at, x).base == at.base
  {
  }

  /** The text of names below a root; exactly two slashes in front of a path are kept. */
  function Rooted(name: string, ns: seq<string>): string {
    (if "//" <= name && !("///" <= name) then "//" else "/") + JoinNames(ns)
  }

  lemma RootedText(b: Base, ns: seq<string>)
    requires !b.Rel? && Named(Dir(b, ns))
    ensures Render(Dir(b, ns)) == (if b.DoubleRoot? then "//" else "/") + JoinNames(ns)
  {
    BaseText(b);
    hide *;
    BareRoot(b);
    if ns == [] {
      assert RenderBase(b) + "" == RenderBase(b);
    } else {
      JoinText(b, [], ns);
      assert [] + ns == ns;
    }
  }

  lemma BaseText(b: Base)
    requires !b.Rel?
    ensures RenderBase(b) == (if b.DoubleRoot? then "//" else "/") && Named(Dir(b, [])) && JoinNames([]) == ""
  {
  }

  lemma {:induction false} ReachedNamed(at: seq<string>, work: seq<string>)
    requires Named(Dir(Root, at)) && forall x | x in work :: IsComp(x)
    ensures Named(Dir(Root, Reached(at, work)))
    decreases |work|
  {
    if work != [] {
      if work[0] == ".." {
        ReachedNamed(Less(at), work[1..]);
      } else {
        ReachedNamed(at + [work[0]], work[1..]);
      }
    }
  }

  /** Where nothing looked up on the way is a link, and the name is not too long, a name resolves to the
      names it reaches, from the root or from the current directory. */
  lemma BareResolve(env: Env, here: Here, name: string, m: nat)
    requires HereOk(here) && name != "" && Bare(env, Comps(name)) && ShortLinks(env, m)
    requires |name| + (if here.Names? then |HereText(here).path| else 0) + SYMLOOP_MAX * (m + 1) + 4 < PATH_MAX
    ensures Resolve(env, HereText(here), name) ==
            if "/" <= name then Path(Rooted(name, Reached([], Comps(name))))
            else match here
                 case Unknown(e) => Error(e)
                 case Names(cwd) => Path(Rooted("", Reached(cwd, Comps(name))))
  {
    hide Resolve, Walk, Comps, Ends, Bare, ShortLinks, Render, JoinNames, Reached;
    ResolveRoomy(env, here, name, m);
    var cwd := if here.Names? then here.names else [];
    BareWalk(env, Comps(name), Ends(name), StartDir(name), false, 0, cwd);
    var at := Walk(env, Comps(name), Ends(name), StartDir(name), false, 0).at;
    StartPlaced(name, cwd);
    CompsAreComps(name);
    if "/" <= name {
      ReachedNamed([], Comps(name));
      RootedText(at.base, Reached([], Comps(name)));
    } else if here.Names? {
      ReachedNamed(cwd, Comps(name));
      RootedText(Root, Reached(cwd, Comps(name)));
    }
  }

  lemma StartPlaced(name: string, cwd: seq<string>)
    requires name != ""
    ensures "/" <= name <==> name[0] == '/'
    ensures !("/" <= name) ==> StartDir(name) == Dir(Rel(0), []) && Placed(StartDir(name), cwd) == Dir(Root, cwd)
    ensures "/" <= name ==>
              StartDir(name) == Dir(if "//" <= name && !("///" <= name) then DoubleRoot else Root, [])
  {
    assert cwd + [] == cwd;
  }

  /** A file system in which everything exists and nothing is a link. */
  lemma ExistingResolve(env: Env, here: Here, name: string)
    requires HereOk(here) && name != "" && forall t :: env.link(t) == NoLink(EINVAL)
    requires |name| + (if here.Names? then |HereText(here).path| else 0) + SYMLOOP_MAX + 4 < PATH_MAX
    ensures Resolve(env, HereText(here), name) ==
            if "/" <= name then Path(Rooted(name, Reached([], Comps(name))))
            else match here
                 case Unknown(e) => Error(e)
                 case Names(cwd) => Path(Rooted("", Reached(cwd, Comps(name))))
  {
    hide Resolve, Comps, Render, JoinNames, Reached;
    BareResolve(env, here, name, 0);
  }

  // ---- along a path that is written out

  /** The path of the first k names. */
  function Upto(ns: seq<string>, k: nat): string
    requires k <= |ns|
  {
    "/" + JoinNames(ns[..k])
  }

  lemma UptoText(ns: seq<string>, k: nat)
    requires k <= |ns| && Named(Dir(Root, ns))
    ensures Render(Dir(Root, ns[..k])) == Upto(ns, k)
  {
    hide JoinNames;
    RootedText(Root, ns[..k]);
  }

  lemma {:induction false} ClearUpto(env: Env, ns: seq<string>, k: nat)
    requires k <= |ns| && Named(Dir(Root, ns)) && forall j | 1 <= j <= k :: NotLink(env, Upto(ns, j))
    ensures Clear(env, Dir(Root, ns[..k]))
    decreases k
  {
    hide JoinNames, NotLink, Render, Upto, Named;
    if k > 0 {
      ClearUpto(env, ns, k - 1);
      UptoText(ns, k);
      assert ns[..k][..k - 1] == ns[..k - 1];
    }
  }

  /** A path of directories and a file that exist and are no links resolves to itself. */
  lemma ExistingPath(env: Env, cwd: Cwd, ns: seq<string>)
    requires Named(Dir(Root, ns)) && |Upto(ns, |ns|)| < PATH_MAX && (cwd.At? ==> cwd.path != "")
    requires forall k | 1 <= k <= |ns| :: env.link(Upto(ns, k)) == NoLink(EINVAL)
    ensures Resolve(env, cwd, Upto(ns, |ns|)) == Path(Upto(ns, |ns|))
  {
    hide Resolve, JoinNames, Render;
    ClearUpto(env, ns, |ns|);
    UptoText(ns, |ns|);
    assert ns[..|ns|] == ns;
    StraightResolve(env, cwd, Dir(Root, ns));
  }

  lemma FailStep(env: Env, b: Base, pre: seq<string>, x: string, r: string, check: bool, cnt: nat, e: int)
    requires !b.Rel? && Named(Dir(b, pre)) && IsName(x) && (r == "" || r[0] == '/') && env.follow
    requires cnt < SYMLOOP_MAX && |Render(Dir(b, pre))| < PATH_MAX && |Render(Dir(b, pre + [x]))| + |r| < PATH_MAX
    requires var p := Render(Dir(b, pre + [x])); env.link(p) == NoLink(e) && !NotLink(env, p)
    ensures Step(env, State(x + r, Render(Dir(b, pre)), 0, check, cnt)) == Halt(Failed(e))
  {
    hide Render, Sep, PieceLen, NotLink, LookAt, Take;
    var st := State(x + r, Render(Dir(b, pre)), 0, check, cnt);
    PieceOfName(x, r);
    StepIsComponent(env, st);
    RenderPush(Dir(b, pre), x);
    assert Push(Dir(b, pre), x) == Dir(b, pre + [x]);
    RenderLen(Dir(b, pre));
    SepShorter(Render(Dir(b, pre)), x);
    assert st.text[..|x|] == x && x != "..";
  }

  lemma {:induction false} FailRun(env: Env, pre: seq<string>, ns: seq<string>, k: nat, check: bool, cnt: nat, e: int)
    requires Named(Dir(Root, pre)) && Named(Dir(Root, ns)) && cnt < SYMLOOP_MAX && env.follow && 0 < k <= |ns|
    requires |Render(Dir(Root, pre + ns))| < PATH_MAX
    requires forall j | 1 <= j < k :: NotLink(env, Render(Dir(Root, pre + ns[..j])))
    requires var p := Render(Dir(Root, pre + ns[..k])); env.link(p) == NoLink(e) && !NotLink(env, p)
    requires Fits(State(JoinNames(ns), Render(Dir(Root, pre)), 0, check, cnt))
    ensures Run(env, State(JoinNames(ns), Render(Dir(Root, pre)), 0, check, cnt)) == Failed(e)
    decreases |ns|
  {
    hide Step, Named, Render, NotLink, JoinNames, SkipSlashes;
    var st := State(JoinNames(ns), Render(Dir(Root, pre)), 0, check, cnt);
    var x := ns[0];
    var r := if |ns| == 1 then "" else "/" + JoinNames(ns[1..]);
    StraightSizes(Root, pre, ns, r);
    JoinHead(ns, r);
    assert ns[..1] == [x];
    NameFirst(ns);
    if k == 1 {
      FailStep(env, Root, pre, x, r, check, cnt, e);
    } else {
      JoinStart(ns[1..]);
      assert NotLink(env, Render(Dir(Root, pre + ns[..1])));
      StraightStep(env, Root, pre, x, r, check, cnt);
      PushNamed(Dir(Root, pre), x);
      assert Push(Dir(Root, pre), x) == Dir(Root, pre + [x]);
      RunStep(env, st, State(JoinNames(ns[1..]), Render(Dir(Root, pre + [x])), 0, r != "", cnt));
      assert forall j | 0 <= j < |ns| :: (pre + [x]) + ns[1..][..j] == pre + ns[..j + 1];
      assert (pre + [x]) + ns[1..] == pre + ns;
      FailRun(env, pre + [x], ns[1..], k - 1, r != "", cnt, e);
    }
  }

  lemma NameFirst(ns: seq<string>)
    requires Named(Dir(Root, ns)) && ns != []
    ensures IsName(ns[0]) && Named(Dir(Root, ns[1..]))
  {
  }

  /** The first answer that is an error is the error of the resolution. */
  lemma ErrorPath(env: Env, cwd: Cwd, ns: seq<string>, k: nat, e: int)
    requires Named(Dir(Root, ns)) && |Upto(ns, |ns|)| < PATH_MAX && (cwd.At? ==> cwd.path != "") && env.follow
    requires 0 < k <= |ns| && (forall j | 1 <= j < k :: NotLink(env, Upto(ns, j)))
    requires env.link(Upto(ns, k)) == NoLink(e) && e != EINVAL && !(e == ENOENT && env.missingOk)
    ensures Resolve(env, cwd, Upto(ns, |ns|)) == Error(e)
  {
    hide Run, Step, Render, JoinNames, Lead;
    var p := Upto(ns, |ns|);
    forall j | 0 <= j <= |ns|
      ensures Render(Dir(Root, [] + ns[..j])) == Upto(ns, j)
    {
      UptoText(ns, j);
      assert [] + ns[..j] == ns[..j];
    }
    assert ns[..|ns|] == ns && [] + ns == ns;
    assert !NotLink(env, Upto(ns, k));
    hide NotLink, Upto;
    RootSplit(Root, ns);
    assert ns[..0] == [];
    var st := State(p, "", 0, false, 0);
    var s := State(JoinNames(ns), Render(Dir(Root, [])), 0, false, 0);
    RootStep(env, st, ns);
    RunStep(env, st, s);
    FailRun(env, [], ns, k, false, 0, e);
  }

  lemma RootStep(env: Env, st: State, ns: seq<string>)
    requires Named(Dir(Root, ns)) && st == State(Render(Dir(Root, ns)), "", 0, false, 0) && |st.text| < PATH_MAX
    ensures var s := State(JoinNames(ns), Render(Dir(Root, [])), 0, false, 0);
            Fits(st) && Fits(s) && Step(env, st) == More(s)
  {
    hide Render, JoinNames;
    RootSplit(Root, ns);
  }

  lemma {:induction false} FirstMissing(env: Env, ns: seq<string>, k: nat) returns (j: nat)
    requires 0 < k <= |ns| && env.link(Upto(ns, k)) == NoLink(ENOENT)
    ensures 0 < j <= k && env.link(Upto(ns, j)) == NoLink(ENOENT)
    ensures forall i | 1 <= i < j :: env.link(Upto(ns, i)) != NoLink(ENOENT)
    decreases k
  {
    hide Upto;
    j := k;
    if i :| 1 <= i < k && env.link(Upto(ns, i)) == NoLink(ENOENT) {
      j := FirstMissing(env, ns, i);
    }
  }

  /** A path on which something is missing resolves to itself where that is tolerated, and is an error
      elsewhere. */
  lemma MissingPath(env: Env, cwd: Cwd, ns: seq<string>, m: nat)
    requires Named(Dir(Root, ns)) && |Upto(ns, |ns|)| < PATH_MAX && (cwd.At? ==> cwd.path != "") && env.follow
    requires forall k | 1 <= k <= |ns| :: env.link(Upto(ns, k)) in {NoLink(EINVAL), NoLink(ENOENT)}
    requires 1 <= m <= |ns| && env.link(Upto(ns, m)) == NoLink(ENOENT)
    ensures Resolve(env, cwd, Upto(ns, |ns|)) == if env.missingOk then Path(Upto(ns, |ns|)) else Error(ENOENT)
  {
    hide Resolve, Render, Upto;
    if env.missingOk {
      ClearUpto(env, ns, |ns|);
      UptoText(ns, |ns|);
      assert ns[..|ns|] == ns;
      StraightResolve(env, cwd, Dir(Root, ns));
    } else {
      var k := FirstMissing(env, ns, m);
      ErrorPath(env, cwd, ns, k, ENOENT);
    }
  }

  // ---- through one link

  /** Names that are no links are walked one after the other. */
  lemma {:induction false} WalkAlong(env: Env, b: Base, pre: seq<string>, ns: seq<string>, work: seq<string>,
                                     ends: bool, check: bool, cnt: nat)
    requires cnt < SYMLOOP_MAX && work != [] && !b.Rel? && Named(Dir(b, ns))
    requires forall k | 1 <= k <= |ns| :: NotLink(env, Render(Dir(b, pre + ns[..k])))
    ensures Walk(env, ns + work, ends, Dir(b, pre), check, cnt)
         == Walk(env, work, ends, Dir(b, pre + ns), ns != [] || check, cnt)
    decreases |ns|
  {
    hide Render, Named, LookAt, NotLink;
    if ns == [] {
      assert [] + work == work && pre + [] == pre;
    } else {
      var x := ns[0];
      var at := Dir(b, pre);
      assert (ns + work)[0] == x && (ns + work)[1..] == ns[1..] + work;
      assert ns[..1] == [x];
      NamesFirst(b, ns);
      assert Push(at, x) == Dir(b, pre + [x]);
      hide Walk, Push;
      assert NotLink(env, Render(Dir(b, pre + ns[..1])));
      WalkOver(env, ns + work, ends, at, check, cnt);
      assert forall k | 0 <= k < |ns| :: (pre + [x]) + ns[1..][..k] == pre + ns[..k + 1];
      assert (pre + [x]) + ns[1..] == pre + ns;
      WalkAlong(env, b, pre + [x], ns[1..], work, ends, true, cnt);
    }
  }

  /** One name that is no link is walked over. */
  lemma WalkOver(env: Env, work: seq<string>, ends: bool, at: Dir, check: bool, cnt: nat)
    requires cnt < SYMLOOP_MAX && |work| > 1 && IsName(work[0]) && work[0] != ".."
    requires NotLink(env, Render(Push(at, work[0])))
    ensures Walk(env, work, ends, at, check, cnt) == Walk(env, work[1..], ends, Push(at, work[0]), true, cnt)
  {
    hide Render, LookAt, NotLink;
    RenderPush(at, work[0]);
  }

  lemma NamesFirst(b: Base, ns: seq<string>)
    requires Named(Dir(b, ns)) && ns != []
    ensures IsName(ns[0]) && ns[0] != ".." && Named(Dir(b, ns[1..]))
  {
  }

  /** The one link is x in the directory of the names pre. */
  ghost predicate OneLink(env: Env, pre: seq<string>, x: string, c: string) {
    && Named(Dir(Root, pre + [x])) && c != ""
    && env.link(Upto(pre + [x], |pre| + 1)) == Content(c)
    && forall t | t != Upto(pre + [x], |pre| + 1) :: env.link(t) == NoLink(EINVAL)
  }

  lemma LastPiece(o: string, y: string, o': string, x: string)
    requires (o == "" || o[|o| - 1] == '/') && (o' == "" || o'[|o'| - 1] == '/')
    requires NoSlash(x) && NoSlash(y) && o + y == o' + x
    ensures x == y
  {
    var t := o + y;
    assert |t| == |o| + |y| == |o'| + |x|;
    assert forall i | |o| <= i < |t| :: t[i] == y[i - |o|];
    assert forall i | |o'| <= i < |t| :: t[i] == (o' + x)[i] == x[i - |o'|];
    assert o' != "" ==> t[|o'| - 1] == (o' + x)[|o'| - 1] == '/';
    assert |o| == |o'|;
    assert t[|o|..] == y && (o' + x)[|o|..] == x;
  }

  lemma OneBare(env: Env, pre: seq<string>, x: string, c: string, work: seq<string>)
    requires OneLink(env, pre, x, c) && x !in work && forall y | y in work :: NoSlash(y)
    ensures Bare(env, work)
  {
    hide Render, JoinNames, Sep;
    var ns := pre + [x];
    UptoText(ns, |ns|);
    assert ns[..|ns|] == ns && IsName(x) && ns[..|ns| - 1] == pre;
    RenderOne(Dir(Root, ns));
    var o' := Sep(Render(Dir(Root, pre)));
    SepEnds(Render(Dir(Root, pre)));
    forall o: string, y: string | (o == "" || o[|o| - 1] == '/') && (y == "" || y in work)
      ensures NotLink(env, o + y)
    {
      if o + y == o' + x {
        LastPiece(o, y, o', x);
      }
    }
  }

  lemma SepEnds(o: string)
    ensures Sep(o) == "" || Sep(o)[|Sep(o)| - 1] == '/'
  {
  }

  /** Where contents are resolved from: the link's directory, or the root directory rn. */
  function From(pre: seq<string>, rn: seq<string>, c: string): seq<string> {
    if "/" <= c then rn else pre
  }

  lemma {:induction false} ReachedOver(at: seq<string>, ns: seq<string>, work: seq<string>)
    requires ".." !in ns
    ensures Reached(at, ns + work) == Reached(at + ns, work)
    decreases |ns|
  {
    if ns == [] {
      assert [] + work == work && at + [] == at;
    } else {
      assert (ns + work)[0] == ns[0] && (ns + work)[1..] == ns[1..] + work;
      assert (at + [ns[0]]) + ns[1..] == at + ns;
      ReachedOver(at + [ns[0]], ns[1..], work);
    }
  }

  /** The text before the link's contents: nothing, or the root directory. */
  function Moved(env: Env, c: string): string {
    if "/" <= c && env.root != "/" then env.root + c else c
  }

  /** The root directory, as its names. */
  ghost predicate RootNames(env: Env, rn: seq<string>) {
    Named(Dir(Root, rn)) && env.root == Upto(rn, |rn|)
  }

  lemma MovedComps(env: Env, c: string, rn: seq<string>)
    requires RootNames(env, rn) && c != ""
    ensures Comps(Moved(env, c)) == (if "/" <= c then rn else []) + Comps(c) && Moved(env, c) != ""
    ensures "/" <= Moved(env, c) <==> "/" <= c
    ensures "/" <= c && rn != [] ==> Lead(Moved(env, c)) == Root
  {
    hide Comps, JoinNames, Render, Lead;
    UptoText(rn, |rn|);
    assert rn[..|rn|] == rn;
    RenderComps(Dir(Root, rn));
    if rn == [] {
      JoinStart(rn);
      assert env.root == "/" && [] + Comps(c) == Comps(c);
    } else {
      RootSecond(rn);
      RootEnds(rn);
      if "/" <= c {
        CompsJoin(env.root, c);
        RootedLead(env.root, c);
      } else {
        assert [] + Comps(c) == Comps(c);
      }
    }
  }

  lemma RootEnds(rn: seq<string>)
    requires rn != [] && Named(Dir(Root, rn))
    ensures Render(Dir(Root, rn)) != "/"
  {
    RenderEnd(Dir(Root, rn));
  }

  lemma LinkNamed(env: Env, pre: seq<string>, x: string, c: string, rest: seq<string>)
    requires OneLink(env, pre, x, c) && Named(Dir(Root, rest))
    ensures Named(Dir(Root, pre + [x] + rest)) && Named(Dir(Root, pre)) && IsName(x)
  {
    assert x in (pre + [x]);
    assert forall y | y in pre :: y in pre + [x];
  }

  lemma LinkShort(env: Env, pre: seq<string>, x: string, c: string)
    requires OneLink(env, pre, x, c)
    ensures ShortLinks(env, |env.root + c|)
  {
    hide Upto, Named;
  }

  lemma LinkPre(env: Env, pre: seq<string>, x: string, c: string)
    requires OneLink(env, pre, x, c)
    ensures forall k | 1 <= k <= |pre| :: NotLink(env, Render(Dir(Root, [] + pre[..k])))
  {
    hide Render, JoinNames;
    var ns := pre + [x];
    UptoText(ns, |ns|);
    assert ns[..|ns|] == ns;
    forall k | 1 <= k <= |pre|
      ensures NotLink(env, Render(Dir(Root, [] + pre[..k])))
    {
      assert [] + pre[..k] == pre[..k] && ns == pre[..k] + ns[k..];
      LongerPath(pre[..k], ns[k..]);
    }
  }

  lemma LongerPath(pre: seq<string>, ns: seq<string>)
    requires Named(Dir(Root, pre + ns)) && ns != []
    ensures |Render(Dir(Root, pre))| < |Render(Dir(Root, pre + ns))|
  {
    hide Render, JoinNames;
    assert forall y | y in pre :: y in pre + ns;
    assert forall y | y in ns :: y in pre + ns;
    JoinText(Root, pre, ns);
    JoinStart(ns);
  }

  /** At the link the walk goes on with its contents. */
  lemma LinkJump(env: Env, pre: seq<string>, x: string, rest: seq<string>, c: string, e: bool, check: bool)
    requires env.follow && OneLink(env, pre, x, c)
    ensures var t := Moved(env, c);
            && t != ""
            && Walk(env, [x] + rest, e, Dir(Root, pre), check, 0)
            == Walk(env, Comps(t) + rest, if rest != [] || e then e else Ends(t), StartAt(t, Dir(Root, pre)),
                    check && t[0] != '/', 1)
  {
    hide Render, Comps, Ends, Named, StartAt, JoinNames;
    var ns := pre + [x];
    NoNames();
    LinkNamed(env, pre, x, c, []);
    UptoText(ns, |ns|);
    assert ns[..|ns|] == ns && Push(Dir(Root, pre), x) == Dir(Root, ns);
    RenderPush(Dir(Root, pre), x);
    NameNotUp(x);
    assert ([x] + rest)[0] == x && ([x] + rest)[1..] == rest;
  }

  lemma NoNames()
    ensures Named(Dir(Root, []))
  {
  }

  lemma NameNotUp(x: string)
    requires IsName(x)
    ensures x != ".."
  {
  }

  /** Where the contents start from, and how the path that comes of it starts. */
  lemma LinkPlace(env: Env, pre: seq<string>, rn: seq<string>, c: string, rest: seq<string>)
    requires RootNames(env, rn) && c != "" && Named(Dir(Root, pre))
    ensures var t := Moved(env, c); var at := StartAt(t, Dir(Root, pre));
            && !at.base.Rel? && Named(Dir(Root, at.names))
            && Reached(at.names, Comps(t) + rest) == Reached(From(pre, rn, c), Comps(c) + rest)
            && (at.base.DoubleRoot? <==> "/" <= c && env.root == "/" && "//" <= c && !("///" <= c))
  {
    hide Comps, JoinNames, Render, Reached;
    var t := Moved(env, c);
    MovedComps(env, c, rn);
    NoNames();
    if "/" <= c {
      StartPlaced(c, []);
      RootIs(env, rn);
      assert (rn + Comps(c)) + rest == rn + (Comps(c) + rest);
      assert ".." !in rn by {
        NamesNotUp(rn);
      }
      ReachedOver([], rn, Comps(c) + rest);
      assert [] + rn == rn && [] + Comps(c) == Comps(c);
    } else {
      assert [] + Comps(c) == Comps(c);
    }
  }

  lemma RootIs(env: Env, rn: seq<string>)
    requires RootNames(env, rn)
    ensures env.root == "/" <==> rn == []
  {
    hide JoinNames, Render;
    UptoText(rn, |rn|);
    assert rn[..|rn|] == rn;
    JoinStart(rn);
  }

  /** From there on nothing is a link any more. */
  lemma LinkWalk(env: Env, pre: seq<string>, x: string, rest: seq<string>, c: string, rn: seq<string>, e: bool,
                 check: bool)
    requires OneLink(env, pre, x, c) && RootNames(env, rn) && Named(Dir(Root, rest))
    requires x !in Comps(c) && x !in rest && x !in rn
    ensures var t := Moved(env, c);
            var w := Walk(env, Comps(t) + rest, e, StartAt(t, Dir(Root, pre)), check, 1);
            && w.Ended? && !w.at.base.Rel?
            && Render(w.at)
            == Rooted(if "/" <= c && env.root == "/" then c else "", Reached(From(pre, rn, c), Comps(c) + rest))
  {
    hide Walk, Comps, Ends, Bare, Render, JoinNames, Reached, Upto, Lead;
    var t := Moved(env, c);
    var at := StartAt(t, Dir(Root, pre));
    var work := Comps(t) + rest;
    MovedComps(env, c, rn);
    CompsAreComps(c);
    LinkNamed(env, pre, x, c, rest);
    assert forall y | y in rn :: IsName(y);
    assert forall y | y in work :: IsComp(y);
    hide Moved, OneLink, RootNames, Named;
    OneBare(env, pre, x, c, work);
    BareWalk(env, work, e, at, check, 1, []);
    LinkPlace(env, pre, rn, c, rest);
    ReachedNamed(at.names, work);
    RootedText(at.base, Reached(at.names, work));
  }

  /** One link on the way: the path resolves to what its contents name, taken from the link's directory or,
      where they start with a slash, from the root directory, and then to the names behind the link. */
  lemma OneLinkPath(env: Env, here: Here, pre: seq<string>, x: string, rest: seq<string>, c: string, rn: seq<string>)
    requires env.follow && HereOk(here) && Named(Dir(Root, rest)) && OneLink(env, pre, x, c) && RootNames(env, rn)
    requires x !in Comps(c) && x !in rest && x !in rn
    requires var ns := pre + [x] + rest;
             |Upto(ns, |ns|)| + (if here.Names? then |HereText(here).path| else 0)
             + SYMLOOP_MAX * (|env.root + c| + 1) + 4 < PATH_MAX
    ensures var ns := pre + [x] + rest;
            Resolve(env, HereText(here), Upto(ns, |ns|)) ==
            Path(Rooted(if "/" <= c && env.root == "/" then c else "", Reached(From(pre, rn, c), Comps(c) + rest)))
  {
    hide Resolve, Walk, Comps, Ends, Bare, Render, JoinNames, Reached, Upto, Lead, OneLink;
    var ns := pre + [x] + rest;
    var name := Upto(ns, |ns|);
    LinkNamed(env, pre, x, c, rest);
    LinkShort(env, pre, x, c);
    UptoText(ns, |ns|);
    assert ns[..|ns|] == ns;
    RootSplit(Root, ns);
    RenderComps(Dir(Root, ns));
    ResolveRoomy(env, here, name, |env.root + c|);
    StartPlaced(name, []);
    assert ns == pre + ([x] + rest) && [] + pre == pre;
    LinkPre(env, pre, x, c);
    WalkAlong(env, Root, [], pre, [x] + rest, Ends(name), false, 0);
    LinkJump(env, pre, x, rest, c, Ends(name), pre != []);
    var t := Moved(env, c);
    LinkWalk(env, pre, x, rest, c, rn, if rest != [] || Ends(name) then Ends(name) else Ends(t),
             pre != [] && t[0] != '/');
  }

  lemma {:induction false} SelfWalk(env: Env, pre: seq<string>, x: string, rest: seq<string>, e: bool, check: bool,
                                    cnt: nat)
    requires env.follow && OneLink(env, pre, x, x) && cnt < SYMLOOP_MAX
    ensures Walk(env, [x] + rest, e, Dir(Root, pre), check, cnt) == Broken(ELOOP)
    decreases SYMLOOP_MAX - cnt
  {
    hide Render, Named, JoinNames;
    var ns := pre + [x];
    NoNames();
    LinkNamed(env, pre, x, x, []);
    UptoText(ns, |ns|);
    assert ns[..|ns|] == ns && Push(Dir(Root, pre), x) == Dir(Root, ns);
    RenderPush(Dir(Root, pre), x);
    NameNotUp(x);
    NameAlone(x);
    hide Comps, Ends;
    assert ([x] + rest)[0] == x && ([x] + rest)[1..] == rest;
    if cnt + 1 != SYMLOOP_MAX {
      SelfWalk(env, pre, x, rest, if rest != [] || e then e else Ends(x), check, cnt + 1);
    }
  }

  lemma NameAlone(x: string)
    requires IsName(x)
    ensures Comps(x) == [x] && x[0] != '/'
  {
    PieceComps(x);
  }

  /** A link to itself is followed until there have been forty. */
  lemma SelfLinkPath(env: Env, here: Here, pre: seq<string>, x: string, rest: seq<string>)
    requires env.follow && HereOk(here) && Named(Dir(Root, rest)) && OneLink(env, pre, x, x)
    requires var ns := pre + [x] + rest;
             |Upto(ns, |ns|)| + (if here.Names? then |HereText(here).path| else 0)
             + SYMLOOP_MAX * (|env.root + x| + 1) + 4 < PATH_MAX
    ensures var ns := pre + [x] + rest; Resolve(env, HereText(here), Upto(ns, |ns|)) == Error(ELOOP)
  {
    hide Resolve, Walk, Comps, Ends, Bare, Render, JoinNames, Reached, Upto, Lead, OneLink;
    var ns := pre + [x] + rest;
    var name := Upto(ns, |ns|);
    LinkNamed(env, pre, x, x, rest);
    LinkShort(env, pre, x, x);
    UptoText(ns, |ns|);
    assert ns[..|ns|] == ns;
    RootSplit(Root, ns);
    RenderComps(Dir(Root, ns));
    ResolveRoomy(env, here, name, |env.root + x|);
    StartPlaced(name, []);
    assert ns == pre + ([x] + rest) && [] + pre == pre;
    LinkPre(env, pre, x, x);
    WalkAlong(env, Root, [], pre, [x] + rest, Ends(name), false, 0);
    SelfWalk(env, pre, x, rest, Ends(name), pre != [], 0);
  }

  // ---- links not followed

  function Linkless(env: Env): Env {
    env.(link := t => NoLink(EINVAL))
  }

  /** Where links are not followed it does not matter what is one. */
  lemma {:induction false} RunUnfollowed(env: Env, st: State)
    requires Fits(st) && !env.follow
    ensures Run(env, st) == Run(Linkless(env), st)
    decreases SYMLOOP_MAX - st.cnt, |st.text|, st.check
  {
    StepUnfollowed(env, st);
    hide Step;
    if Step(env, st).More? {
      StepSmaller(env, st);
      RunUnfollowed(env, Step(env, st).st);
    }
  }

  lemma StepUnfollowed(env: Env, st: State)
    requires !env.follow
    ensures Step(env, st) == Step(Linkless(env), st)
  {
    hide Take, Lead, PieceLen, SkipSlashes, Sep;
  }

  /** A name then resolves to the names it spells, whatever they are. */
  lemma UnfollowedResolve(env: Env, here: Here, name: string)
    requires HereOk(here) && name != "" && !env.follow
    requires |name| + (if here.Names? then |HereText(here).path| else 0) + SYMLOOP_MAX + 4 < PATH_MAX
    ensures Resolve(env, HereText(here), name) ==
            if "/" <= name then Path(Rooted(name, Reached([], Comps(name))))
            else match here
                 case Unknown(e) => Error(e)
                 case Names(cwd) => Path(Rooted("", Reached(cwd, Comps(name))))
  {
    hide Run, Comps, Render, JoinNames, Reached, Finish;
    RunUnfollowed(env, State(name, "", 0, false, 0));
    assert Resolve(env, HereText(here), name) == Resolve(Linkless(env), HereText(here), name);
    ExistingResolve(Linkless(env), here, name);
  }
}
