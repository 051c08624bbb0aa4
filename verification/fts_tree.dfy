// A file hierarchy as a walk sees it: entries, their classification, and the depth-first tour.
module FtsTree {
  import opened FileNames

  datatype FileId = FileId(dev: int, ino: int)

  datatype Stat = Missing(errno: int) | Directory(id: FileId) | Symlink | Regular | Special

  datatype Listing = Unreadable(errno: int) | Entries(names: seq<string>)

  /** A fixed file system: what lstat, stat and reading a directory answer for each path. */
  datatype Fs = Fs(lstat: string -> Stat, stat: string -> Stat, list: string -> Listing, ids: set<FileId>)

  datatype Info = D | DC | DEFAULT | DNR | DOT | DP | ERR | F | INIT | NS | SL | SLNONE

  /** One node of the walk; id counts for directories only. */
  datatype Ent = Ent(name: string, path: string, level: int, info: Info, id: FileId, errno: int)

  datatype Options = Options(logical: bool, comfollow: bool, seedot: bool, xdev: bool)

  /** What a comparison sees of a node. */
  datatype Key = Key(name: string, info: Info, id: FileId)

  /** Sorting by the caller's comparison: where each node of the sorted list comes from. */
  type Order = seq<Key> -> seq<nat>

  function Keys(es: seq<Ent>): (ks: seq<Key>)
    ensures |ks| == |es|
  {
    if es == [] then [] else [Key(es[0].name, es[0].info, es[0].id)] + Keys(es[1..])
  }

  datatype World = World(fs: Fs, opts: Options, sorted: bool, sort: Order)

  /** File names are not empty and have no slash and no NUL; directories have one of finitely many
      identities. */
  ghost predicate Sane(fs: Fs) {
    && (forall p, i | fs.list(p).Entries? && 0 <= i < |fs.list(p).names| :: IsName(fs.list(p).names[i]))
    && (forall p | fs.stat(p).Directory? :: fs.stat(p).id in fs.ids)
    && (forall p | fs.lstat(p).Directory? :: fs.lstat(p).id in fs.ids)
  }

  /** Sorting permutes. */
  ghost predicate Permutes(sort: Order) {
    forall ks :: Permutation(sort(ks), |ks|)
  }

  predicate Permutation(o: seq<nat>, n: nat) {
    && |o| == n
    && (forall i | 0 <= i < n :: o[i] < n)
    && (forall i, j | 0 <= i < j < n :: o[i] != o[j])
  }

  function Arranged(es: seq<Ent>, o: seq<nat>): (r: seq<Ent>)
    requires forall i | 0 <= i < |o| :: o[i] < |es|
    ensures |r| == |o| && forall i | 0 <= i < |o| :: r[i] == es[o[i]]
  {
    if o == [] then [] else [es[o[0]]] + Arranged(es, o[1..])
  }

  const NOID := FileId(0, 0)

  /** A node after it has been looked at, below directories with the given identities. */
  function Stated(w: World, e: Ent, follow: bool, above: seq<FileId>): Ent {
    match (if w.opts.logical || follow then w.fs.stat(e.path) else w.fs.lstat(e.path))
    case Missing(errno) =>
      if (w.opts.logical || follow) && !w.fs.lstat(e.path).Missing? then
        e.(info := SLNONE)
      else
        e.(info := NS, errno := errno)
    case Directory(id) => e.(info := if IsDot(e.name) then DOT else if id in above then DC else D, id := id)
    case Symlink => e.(info := SL)
    case Regular => e.(info := F)
    case Special => e.(info := DEFAULT)
  }

  /** The path of a name in a directory; a slash at the directory's end is not doubled. */
  function ChildPath(dir: string, name: string): string {
    DirText(dir) + name
  }

  function Child(w: World, dir: Ent, above: seq<FileId>, name: string): Ent {
    Stated(w, Ent(name, ChildPath(dir.path, name), dir.level + 1, INIT, NOID, 0), false, above)
  }

  /** The entries read from a directory, "." and ".." only when asked for. */
  function Seen(w: World, names: seq<string>): seq<string> {
    if names == [] then
      []
    else if !w.opts.seedot && IsDot(names[0]) then
      Seen(w, names[1..])
    else
      [names[0]] + Seen(w, names[1..])
  }

  function Children(w: World, dir: Ent, above: seq<FileId>, names: seq<string>): (es: seq<Ent>)
    ensures |es| == |names|
  {
    if names == [] then [] else [Child(w, dir, above, names[0])] + Children(w, dir, above, names[1..])
  }

  function Sorted(w: World, es: seq<Ent>): seq<Ent> {
    if w.sorted && |es| > 1 && Permutation(w.sort(Keys(es)), |es|) then Arranged(es, w.sort(Keys(es))) else es
  }

  /** An entry as it can stand in a list below the given directories. */
  predicate Placed(w: World, e: Ent, above: seq<FileId>) {
    e.info == D ==> e.id in w.fs.ids && e.id !in above
  }

  predicate AllPlaced(w: World, es: seq<Ent>, above: seq<FileId>) {
    forall i | 0 <= i < |es| :: Placed(w, es[i], above)
  }

  /** The identities of directories that can still be entered. */
  function Room(w: World, above: seq<FileId>): nat {
    |w.fs.ids - (set x | x in above)|
  }

  /** What a directory holds: its children below it, in the order they are visited. */
  function Listed(w: World, e: Ent, above: seq<FileId>, names: seq<string>): seq<Ent> {
    Sorted(w, Children(w, e, above + [e.id], Seen(w, names)))
  }

  /** A directory on another device is not entered when asked so. */
  predicate Crosses(w: World, dev: int, e: Ent) {
    w.opts.xdev && e.id.dev != dev
  }

  lemma RoomLess(w: World, above: seq<FileId>, id: FileId)
    requires id in w.fs.ids && id !in above
    ensures Room(w, above + [id]) < Room(w, above)
  {
    var a := set x | x in above;
    var b := set x | x in above + [id];
    assert b == a + {id};
    assert w.fs.ids - b < w.fs.ids - a by {
      assert id in w.fs.ids - a && id !in w.fs.ids - b;
    }
    ProperSmaller(w.fs.ids - b, w.fs.ids - a);
  }

  lemma {:induction false} ProperSmaller(a: set<FileId>, b: set<FileId>)
    requires a < b
    ensures |a| < |b|
  {
    var c := b - a;
    assert b == a + c && a !! c;
    assert c != {};
  }

  lemma StatedPlaced(w: World, e: Ent, follow: bool, above: seq<FileId>)
    requires Sane(w.fs)
    ensures Placed(w, Stated(w, e, follow, above), above)
    ensures var s := Stated(w, e, follow, above); s.path == e.path && s.name == e.name && s.level == e.level
  {
  }

  lemma {:induction false} ChildrenPlaced(w: World, dir: Ent, above: seq<FileId>, names: seq<string>)
    requires Sane(w.fs)
    ensures AllPlaced(w, Children(w, dir, above, names), above)
  {
    hide Sane, Stated, Placed;
    if names != [] {
      StatedPlaced(w, Ent(names[0], ChildPath(dir.path, names[0]), dir.level + 1, INIT, NOID, 0), false, above);
      ChildrenPlaced(w, dir, above, names[1..]);
    }
  }

  lemma PermutedPlaced(w: World, es: seq<Ent>, above: seq<FileId>)
    requires Permutes(w.sort) && AllPlaced(w, es, above)
    ensures AllPlaced(w, Sorted(w, es), above)
  {
    hide Placed;
    var o := w.sort(Keys(es));
    assert Permutation(o, |es|);
    forall i | 0 <= i < |o|
      ensures Placed(w, Arranged(es, o)[i], above)
    {
      assert Placed(w, es[o[i]], above);
    }
  }

  lemma ListedPlaced(w: World, e: Ent, above: seq<FileId>, names: seq<string>)
    requires Sane(w.fs) && Permutes(w.sort)
    ensures AllPlaced(w, Listed(w, e, above, names), above + [e.id])
  {
    hide Sane, AllPlaced, Permutes;
    ChildrenPlaced(w, e, above + [e.id], Seen(w, names));
    PermutedPlaced(w, Children(w, e, above + [e.id], Seen(w, names)), above + [e.id]);
  }

  // ---- the tour

  /** How a directory whose entries have all been visited is visited again. */
  function Done(e: Ent): Ent {
    e.(info := if e.errno != 0 then ERR else DP)
  }

  /** The visits of a directory after the first: what is in it, then itself again. */
  function Inside(w: World, dev: int, e: Ent, above: seq<FileId>): seq<Ent>
    requires Sane(w.fs) && Permutes(w.sort) && Placed(w, e, above)
    decreases Room(w, above), 0
  {
    if e.info != D then
      []
    else if Crosses(w, dev, e) then
      [e.(info := DP)]
    else
      match w.fs.list(e.path)
      case Unreadable(errno) => [e.(info := DNR, errno := errno)]
      case Entries(names) =>
        RoomLess(w, above, e.id);
        ListedPlaced(w, e, above, names);
        if Seen(w, names) == [] then
          [e.(info := DP)]
        else
          TourAll(w, dev, Listed(w, e, above, names), above + [e.id]) + [Done(e)]
  }

  /** The visits of a list of nodes: each in turn, with what is inside it. */
  function TourAll(w: World, dev: int, es: seq<Ent>, above: seq<FileId>): seq<Ent>
    requires Sane(w.fs) && Permutes(w.sort) && AllPlaced(w, es, above)
    decreases Room(w, above), |es| + 1
  {
    if es == [] then
      []
    else
      assert Placed(w, es[0], above);
      [es[0]] + Inside(w, dev, es[0], above) + TourAll(w, dev, es[1..], above)
  }
}
