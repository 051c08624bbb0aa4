// The recursive tree walk: what is called back in which order, and the tree it goes over.
module NftwTree {
  import opened FileNames
  import opened Limits
  import opened Wrappers

  datatype Kind = Dir | Link | Other

  datatype Stat = Failed(errno: int) | Ok(kind: Kind, dev: int, ino: int)

  datatype Opened = Refused(errno: int) | Names(names: seq<string>)

  /** What the file system answers for each path. */
  datatype Env = Env(lstat: string -> Stat, stat: string -> Stat, open: string -> Opened)

  datatype Flags = Flags(phys: bool, mount: bool, depth: bool)

  datatype Type = FTW_F | FTW_D | FTW_DNR | FTW_NS | FTW_SL | FTW_DP | FTW_SLN

  /** One call of the caller's function. */
  datatype Call = Call(path: string, typ: Type, level: nat, base: nat)

  /** A directory on the way down. */
  datatype Above = Above(dev: int, ino: int)

  /** A node of the walk: what it is called back with, whether it is one of its own ancestors, what it
      holds. A node on another device is left out; one that cannot be looked at, or read, or whose path
      does not fit, ends the walk. */
  datatype Tree = Skipped | Blocked | Node(call: Call, again: bool, kids: seq<Tree>)

  /** What a walk does: call back, or give up. */
  datatype Deed = Visit(call: Call) | GiveUp

  /** Where the last component of a path starts, slashes at the end aside. */
  function RootBase(path: string): (k: nat)
    ensures k <= |path|
  {
    var j := if path != "" && path[|path| - 1] == '/' then |path| - 1 else |path|;
    CompStart(path, SlashBack(path, j))
  }

  function SlashBack(path: string, k: nat): (r: nat)
    requires k <= |path|
    ensures r <= k
  {
    if k > 0 && k < |path| && path[k] == '/' then SlashBack(path, k - 1) else k
  }

  function CompStart(path: string, k: nat): (r: nat)
    requires k <= |path|
    ensures r <= k
  {
    if k > 0 && path[k - 1] != '/' then CompStart(path, k - 1) else k
  }

  /** What is found at a path: its type and identity, or nothing but an error. */
  function Look(env: Env, fl: Flags, path: string): Option<(Type, int, int)> {
    match (if fl.phys then env.lstat(path) else env.stat(path))
    case Failed(e) =>
      if !fl.phys && e == ENOENT && env.lstat(path).Ok? then
        Some((FTW_SLN, env.lstat(path).dev, env.lstat(path).ino))
      else if e != EACCES then
        None
      else
        Some((FTW_NS, 0, 0))
    case Ok(kind, dev, ino) =>
      var t := match kind
               case Dir => (if fl.depth then FTW_DP else FTW_D)
               case Link => (if fl.phys then FTW_SL else FTW_SLN)
               case Other => FTW_F;
      Some((t, dev, ino))
  }

  predicate IsDirType(t: Type) {
    t == FTW_D || t == FTW_DP
  }

  /** A directory that may not be read is known to be one only. */
  function Typed(env: Env, t: Type, path: string): Type {
    if IsDirType(t) && env.open(path) == Refused(EACCES) then FTW_DNR else t
  }

  function Real(names: seq<string>): seq<string> {
    if names == [] then [] else (if IsDot(names[0]) then [] else [names[0]]) + Real(names[1..])
  }

  /** The tree below a path, at most `limit` directories deep. */
  function Plan(env: Env, fl: Flags, path: string, limit: nat, above: seq<Above>, base: nat): Tree
    decreases limit, 1, 0
  {
    match Look(env, fl, path)
    case None => Blocked
    case Some((t0, dev, ino)) =>
      if fl.mount && above != [] && t0 != FTW_NS && dev != above[|above| - 1].dev then
        Skipped
      else
        var call := Call(path, Typed(env, t0, path), |above|, base);
        if Above(dev, ino) in above then
          Node(call, true, [])
        else
          Node(call, false, KidsPlan(env, fl, path, call.typ, limit, above + [Above(dev, ino)]))
  }

  /** What is in a node: something only if it is a directory, and not one at the limit. */
  function KidsPlan(env: Env, fl: Flags, path: string, typ: Type, limit: nat, above: seq<Above>): seq<Tree>
    decreases limit, 0, 0
  {
    if !IsDirType(typ) || limit == 0 then
      []
    else
      match env.open(path)
      case Refused(_) => [Blocked]
      case Names(names) => PlanAll(env, fl, path, Real(names), limit - 1, above)
  }

  /** The trees of the names in a directory. */
  function PlanAll(env: Env, fl: Flags, dir: string, names: seq<string>, limit: nat, above: seq<Above>)
      : (ts: seq<Tree>)
    ensures |ts| == |names|
    decreases limit, 2, |names|
  {
    if names == [] then
      []
    else
      [if |names[0]| + |dir| >= PATH_MAX then Blocked
       else Plan(env, fl, DirText(dir) + names[0], limit, above, |DirText(dir)|)]
      + PlanAll(env, fl, dir, names[1..], limit, above)
  }

  /** Every directory before what is in it. */
  function Pre(t: Tree): seq<Deed> {
    match t
    case Skipped => []
    case Blocked => [GiveUp]
    case Node(call, _, kids) => [Visit(call)] + PreAll(kids)
  }

  function PreAll(ts: seq<Tree>): seq<Deed> {
    if ts == [] then [] else Pre(ts[0]) + PreAll(ts[1..])
  }

  /** Every directory after what is in it; one met again on its own way down is not called at all. */
  function Post(t: Tree): seq<Deed> {
    match t
    case Skipped => []
    case Blocked => [GiveUp]
    case Node(call, again, kids) => if again then [] else PostAll(kids) + [Visit(call)]
  }

  function PostAll(ts: seq<Tree>): seq<Deed> {
    if ts == [] then [] else Post(ts[0]) + PostAll(ts[1..])
  }

  function Order(fl: Flags, t: Tree): seq<Deed> {
    if fl.depth then Post(t) else Pre(t)
  }

  function OrderAll(fl: Flags, ts: seq<Tree>): seq<Deed> {
    if fl.depth then PostAll(ts) else PreAll(ts)
  }

  // ---- what the tree of a walk is

  /** The answer about a path: links at its end are followed unless the walk is physical. */
  function Answer(env: Env, fl: Flags, path: string): Stat {
    if fl.phys then env.lstat(path) else env.stat(path)
  }

  /** A link that leads nowhere. */
  predicate Dangling(env: Env, fl: Flags, path: string) {
    !fl.phys && env.stat(path) == Failed(ENOENT) && env.lstat(path).Ok?
  }

  predicate Denied(env: Env, fl: Flags, path: string) {
    Answer(env, fl, path) == Failed(EACCES)
  }

  /** It cannot be looked at, for another reason than a lack of permission. */
  predicate Unseen(env: Env, fl: Flags, path: string) {
    Answer(env, fl, path).Failed? && !Denied(env, fl, path) && !Dangling(env, fl, path)
  }

  /** The identity that a node is known by: of the file, of a link that leads nowhere, or none. */
  function Identity(env: Env, fl: Flags, path: string): Above {
    var a := if Dangling(env, fl, path) then env.lstat(path) else Answer(env, fl, path);
    if a.Ok? then Above(a.dev, a.ino) else Above(0, 0)
  }

  /** The type a path is called back with: each type exactly when. */
  predicate OfType(env: Env, fl: Flags, path: string, t: Type) {
    var a := Answer(env, fl, path);
    var locked := env.open(path) == Refused(EACCES);
    && (t == FTW_F <==> a.Ok? && a.kind == Other)
    && (t == FTW_SL <==> a.Ok? && a.kind == Link && fl.phys)
    && (t == FTW_SLN <==> (a.Ok? && a.kind == Link && !fl.phys) || Dangling(env, fl, path))
    && (t == FTW_NS <==> Denied(env, fl, path))
    && (t == FTW_DNR <==> a.Ok? && a.kind == Dir && locked)
    && (t == FTW_D <==> a.Ok? && a.kind == Dir && !locked && !fl.depth)
    && (t == FTW_DP <==> a.Ok? && a.kind == Dir && !locked && fl.depth)
  }

  lemma LookIs(env: Env, fl: Flags, path: string)
    ensures var found := Look(env, fl, path);
            && (found.None? <==> Unseen(env, fl, path))
            && (found.Some? ==>
                  && OfType(env, fl, path, Typed(env, found.value.0, path))
                  && (found.value.0 == FTW_NS <==> Denied(env, fl, path))
                  && Identity(env, fl, path) == Above(found.value.1, found.value.2))
  {
  }

  /** t stands for what is at a path, below directories with the given identities: blocked exactly when
      that cannot be looked at, left out exactly when it is on another device than its directory and was
      to be, met again exactly when it is one of those directories, and of the type found. */
  predicate Stands(env: Env, fl: Flags, t: Tree, path: string, base: nat, above: seq<Above>) {
    && (t.Blocked? <==> Unseen(env, fl, path))
    && (t.Skipped? <==> !Unseen(env, fl, path) && fl.mount && above != [] && !Denied(env, fl, path)
                        && Identity(env, fl, path).dev != above[|above| - 1].dev)
    && (t.Node? ==> t.call.path == path && t.call.level == |above| && t.call.base == base
                    && OfType(env, fl, path, t.call.typ) && (t.again <==> Identity(env, fl, path) in above))
  }

  /** The identities of the directories above what a node holds. */
  function Below(env: Env, fl: Flags, t: Tree, above: seq<Above>): seq<Above>
    requires t.Node?
  {
    above + [Identity(env, fl, t.call.path)]
  }

  /** Of the entries each but "." and ".." is taken, in its place. */
  lemma {:induction false} RealIs(before: seq<string>, name: string, behind: seq<string>)
    ensures Real(before + [name] + behind)
         == Real(before) + (if name == "." || name == ".." then [] else [name]) + Real(behind)
    decreases |before|
  {
    var all := before + [name] + behind;
    if before == [] {
      assert all[0] == name && all[1..] == behind && Real([]) == [];
    } else {
      assert all[0] == before[0] && all[1..] == before[1..] + [name] + behind;
      RealIs(before[1..], name, behind);
    }
  }

  /** What is in a node: for a directory above the limit that is not its own ancestor one child for each
      of its entries but "." and "..", in their order; else nothing. */
  predicate Filled(env: Env, fl: Flags, t: Tree, limit: nat, above: seq<Above>)
    requires t.Node?
  {
    if t.again || limit == 0 || (t.call.typ != FTW_D && t.call.typ != FTW_DP) then
      t.kids == []
    else
      match env.open(t.call.path)
      case Refused(_) => t.kids == [Blocked]
      case Names(names) =>
        |t.kids| == |Real(names)|
        && forall i | 0 <= i < |t.kids| :: ForName(env, fl, t.kids[i], t.call.path, Real(names)[i], above)
  }

  /** The child for a name stands for what is at the directory's path with the name behind; it is blocked
      where that does not fit. */
  predicate ForName(env: Env, fl: Flags, t: Tree, dir: string, name: string, above: seq<Above>) {
    var front := if dir != "" && dir[|dir| - 1] == '/' then dir else dir + "/";
    if |name| + |dir| >= PATH_MAX then t.Blocked? else Stands(env, fl, t, front + name, |front|, above)
  }

  /** Every node is filled with exactly its entries. */
  predicate Shaped(env: Env, fl: Flags, t: Tree, limit: nat, above: seq<Above>)
    decreases t
  {
    t.Node? ==>
      && Filled(env, fl, t, limit, Below(env, fl, t, above))
      && AllShaped(env, fl, t.kids, if limit > 0 then limit - 1 else 0, Below(env, fl, t, above))
  }

  predicate AllShaped(env: Env, fl: Flags, ts: seq<Tree>, limit: nat, above: seq<Above>)
    decreases ts
  {
    ts == [] || (Shaped(env, fl, ts[0], limit, above) && AllShaped(env, fl, ts[1..], limit, above))
  }

  /** Every name but "." and ".." is real, in its order. */
  lemma {:induction false} RealAre(names: seq<string>)
    ensures forall x :: x in Real(names) <==> x in names && x != "." && x != ".."
    decreases |names|
  {
    if names != [] {
      RealAre(names[1..]);
      assert names == [names[0]] + names[1..];
    }
  }

  /** What is planned is there: every node stands for what is found at its path, at its level and base,
      and every entry of a directory that is entered is planned, none other, and none below the limit or
      below a directory met again. */
  lemma {:induction false} PlanShaped(env: Env, fl: Flags, path: string, limit: nat, above: seq<Above>, base: nat)
    ensures var t := Plan(env, fl, path, limit, above, base);
            Stands(env, fl, t, path, base, above) && Shaped(env, fl, t, limit, above)
    decreases limit, 1, 0
  {
    LookIs(env, fl, path);
    hide Look, Typed, KidsPlan, AllShaped, DirText, ForName, Real, OfType, Unseen, Denied, Identity;
    var t := Plan(env, fl, path, limit, above, base);
    if t.Node? {
      if t.again {
        NoneShaped(env, fl, if limit > 0 then limit - 1 else 0, Below(env, fl, t, above));
      } else {
        KidsShaped(env, fl, path, t.call.typ, limit, Below(env, fl, t, above), t.call);
      }
    }
  }

  lemma {:induction false} KidsShaped(env: Env, fl: Flags, path: string, typ: Type, limit: nat, above: seq<Above>,
                                      call: Call)
    requires call.path == path && call.typ == typ
    ensures var kids := KidsPlan(env, fl, path, typ, limit, above);
            && Filled(env, fl, Node(call, false, kids), limit, above)
            && AllShaped(env, fl, kids, if limit > 0 then limit - 1 else 0, above)
    decreases limit, 0, 0
  {
    hide Look, Typed, PlanAll, AllShaped, DirText, ForName, Real;
    if !IsDirType(typ) || limit == 0 {
      NoneShaped(env, fl, if limit > 0 then limit - 1 else 0, above);
    } else {
      match env.open(path)
      case Refused(_) => BlockedShaped(env, fl, limit - 1, above);
      case Names(names) => AllPlanShaped(env, fl, path, Real(names), limit - 1, above);
    }
  }

  lemma NoneShaped(env: Env, fl: Flags, limit: nat, above: seq<Above>)
    ensures AllShaped(env, fl, [], limit, above)
  {
  }

  lemma BlockedShaped(env: Env, fl: Flags, limit: nat, above: seq<Above>)
    ensures AllShaped(env, fl, [Blocked], limit, above) && Shaped(env, fl, Blocked, limit, above)
  {
    assert [Blocked][1..] == [];
  }

  lemma {:induction false} AllPlanShaped(env: Env, fl: Flags, dir: string, names: seq<string>, limit: nat,
                                         above: seq<Above>)
    ensures var ts := PlanAll(env, fl, dir, names, limit, above);
            && AllShaped(env, fl, ts, limit, above)
            && forall i | 0 <= i < |names| :: ForName(env, fl, ts[i], dir, names[i], above)
    decreases limit, 2, |names|
  {
    hide Plan, Shaped, Stands;
    var ts := PlanAll(env, fl, dir, names, limit, above);
    if names != [] {
      AllPlanShaped(env, fl, dir, names[1..], limit, above);
      if |names[0]| + |dir| < PATH_MAX {
        PlanShaped(env, fl, DirText(dir) + names[0], limit, above, |DirText(dir)|);
      } else {
        BlockedShaped(env, fl, limit, above);
      }
      assert ts[1..] == PlanAll(env, fl, dir, names[1..], limit, above);
      forall i | 0 <= i < |names|
        ensures ForName(env, fl, ts[i], dir, names[i], above)
      {
        assert i > 0 ==> ts[i] == ts[1..][i - 1] && names[i] == names[1..][i - 1];
      }
    }
  }

  /** A directory is called back before all that is in it, or, with FTW_DEPTH, after. */
  lemma OrderEnds(fl: Flags, call: Call, kids: seq<Tree>)
    ensures var ds := Order(fl, Node(call, false, kids));
            && |ds| == 1 + |OrderAll(fl, kids)|
            && (if fl.depth then ds == OrderAll(fl, kids) + [Visit(call)] else ds == [Visit(call)] + OrderAll(fl, kids))
  {
  }

  // ---- where the name of a root starts

  /** path is what stands in front of its last name, the name, and slashes. */
  ghost predicate NamedLast(path: string, front: string, name: string, slashes: string) {
    && path == front + name + slashes && name != ""
    && (front == "" || front[|front| - 1] == '/')
    && (forall i | 0 <= i < |name| :: name[i] != '/') && (forall i | 0 <= i < |slashes| :: slashes[i] == '/')
  }

  lemma {:induction false} SlashesBack(path: string, k: nat, e: nat)
    requires e <= k < |path| && (forall i | e < i <= k :: path[i] == '/') && path[e] != '/'
    ensures SlashBack(path, k) == e
    decreases k
  {
    if e < k {
      SlashesBack(path, k - 1, e);
    }
  }

  lemma {:induction false} NameBack(path: string, k: nat, b: nat)
    requires b <= k <= |path| && (forall i | b <= i < k :: path[i] != '/') && (b == 0 || path[b - 1] == '/')
    ensures CompStart(path, k) == b
    decreases k
  {
    if b < k {
      NameBack(path, k - 1, b);
    }
  }

  /** The base of a root is the start of its last name, slashes behind it aside. */
  lemma RootBaseIs(path: string, front: string, name: string, slashes: string)
    requires NamedLast(path, front, name, slashes)
    ensures RootBase(path) == |front|
  {
    var b := |front|;
    var e := b + |name|;
    assert forall i | b <= i < e :: path[i] == name[i - b];
    assert forall i | e <= i < |path| :: path[i] == slashes[i - e];
    assert b > 0 ==> path[b - 1] == front[b - 1];
    hide SlashBack, CompStart;
    if slashes == "" {
      LastBack(path);
      NameBack(path, e, b);
    } else {
      SlashesBack(path, |path| - 1, e - 1);
      NameBack(path, e - 1, b);
    }
  }

  lemma LastBack(path: string)
    ensures SlashBack(path, |path|) == |path|
  {
  }

  /** The nodes of a tree but those met again on their own way down, directories first. */
  function PreOnce(t: Tree): seq<Deed> {
    match t
    case Skipped => []
    case Blocked => [GiveUp]
    case Node(call, again, kids) => if again then [] else [Visit(call)] + PreOnceAll(kids)
  }

  function PreOnceAll(ts: seq<Tree>): seq<Deed> {
    if ts == [] then [] else PreOnce(ts[0]) + PreOnceAll(ts[1..])
  }

  /** Directories last or first, the same nodes are called back, each as often. */
  lemma {:induction false} PostIsPre(t: Tree)
    ensures multiset(Post(t)) == multiset(PreOnce(t))
    decreases t
  {
    hide PostAll, PreOnceAll;
    match t
    case Skipped =>
    case Blocked =>
    case Node(call, again, kids) => PostAllIsPre(kids);
  }

  lemma {:induction false} PostAllIsPre(ts: seq<Tree>)
    ensures multiset(PostAll(ts)) == multiset(PreOnceAll(ts))
    decreases ts
  {
    hide Post, PreOnce;
    if ts != [] {
      PostIsPre(ts[0]);
      PostAllIsPre(ts[1..]);
    }
  }
}
