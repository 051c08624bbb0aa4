// The walk over linked nodes and one shared path buffer.
module FtsNodes {
  import opened FileNames
  import opened Limits
  import opened Wrappers
  import opened CStrings
  import opened FtsTree
  import opened FtsWalk
  import opened FtsShape
  import opened FtsPaths

  /** A node of the walk, linked to its directory and to the next node beside it. */
  class Node {
    var name: string
    var level: int
    var pathLen: nat
    var info: Info
    var instr: Instr
    var errno: int
    var id: FileId
    var parent: Node?
    var link: Node?
    /** The path it stands for, and its place in its list. */
    ghost var path: string
    ghost var pos: int

    constructor (name: string, ghost path: string)
      ensures this.name == name && this.path == path && pathLen == |name| && level == 0 && parent == null &&
              link == null
      ensures info == INIT && instr == NOINSTR && errno == 0 && id == NOID
    {
      this.name, this.path, pathLen, level := name, path, |name|, 0;
      info, instr, errno, id, parent, link := INIT, NOINSTR, 0, NOID, null, null;
      pos := 0;
    }

    ghost function Val(): Ent
      reads this
    {
      Ent(name, path, level, info, id, errno)
    }
  }

  /** n stands for e, below up, with link beside it. */
  ghost predicate NodeAt(n: Node, e: Ent, up: Node, link: Node?, level: int)
    reads n
  {
    n.level == level && n.parent == up && n.link == link && n.Val() == e && n.pathLen == |e.path|
  }

  function NextIn(ns: seq<Node>, j: nat): Node? {
    if j + 1 < |ns| then ns[j + 1] else null
  }

  /** ns is a linked list of nodes that stand for es. */
  ghost predicate ListOk(ns: seq<Node>, es: seq<Ent>, up: Node, level: int)
    reads ns
  {
    && |ns| == |es|
    && (forall j | 0 <= j < |ns| :: NodeAt(ns[j], es[j], up, NextIn(ns, j), level))
    && (forall i, j | 0 <= i < j < |ns| :: ns[i].pos < ns[j].pos)
  }

  lemma ListTail(ns: seq<Node>, es: seq<Ent>, up: Node, level: int)
    requires ListOk(ns, es, up, level) && ns != []
    ensures ListOk(ns[1..], es[1..], up, level)
  {
    forall j | 0 <= j < |ns[1..]|
      ensures NodeAt(ns[1..][j], es[1..][j], up, NextIn(ns[1..], j), level)
    {
      assert NodeAt(ns[j + 1], es[j + 1], up, NextIn(ns, j + 1), level);
    }
  }

  /** A node put behind a list whose last node is tail. */
  method Append(tail: Node, p: Node, ghost ns: seq<Node>, ghost es: seq<Ent>, ghost e: Ent, ghost up: Node,
                ghost level: int)
    requires ns != [] && tail == ns[|ns| - 1] && ListOk(ns, es, up, level) && NodeAt(p, e, up, null, level)
    requires forall j | 0 <= j < |ns| :: ns[j].pos < p.pos
    modifies tail`link
    ensures ListOk(ns + [p], es + [e], up, level)
  {
    ghost var all := ns + [p];
    forall j | 0 <= j < |ns|
      ensures NodeAt(ns[j], es[j], up, NextIn(ns, j), level) && (j < |ns| - 1 ==> NextIn(ns, j) == NextIn(all, j))
    {
    }
    tail.link := p;
    forall j | 0 <= j < |all|
      ensures NodeAt(all[j], (es + [e])[j], up, NextIn(all, j), level)
    {
      assert j < |ns| - 1 ==> ns[j].pos < tail.pos;
    }
  }

  method AppendOrStart(tail: Node?, p: Node, ghost ns: seq<Node>, ghost es: seq<Ent>, ghost e: Ent, ghost up: Node,
                       ghost level: int)
    requires tail == (if ns == [] then null else ns[|ns| - 1]) && ListOk(ns, es, up, level) &&
             NodeAt(p, e, up, null, level)
    requires forall j | 0 <= j < |ns| :: ns[j].pos < p.pos
    modifies (if tail == null then {} else {tail})`link
    ensures ListOk(ns + [p], es + [e], up, level)
  {
    hide ListOk;
    ListCount(ns, es, up, level);
    if tail == null {
      ListOne(p, e, up, level);
      assert ns + [p] == [p] && es + [e] == [e];
    } else {
      Append(tail, p, ns, es, e, up, level);
    }
  }

  lemma ListOne(p: Node, e: Ent, up: Node, level: int)
    requires NodeAt(p, e, up, null, level)
    ensures ListOk([p], [e], up, level)
  {
  }

  /** A first node put before a list. */
  lemma ListCons(ns: seq<Node>, es: seq<Ent>, up: Node, level: int)
    requires ns != [] && es != [] && ListOk(ns[1..], es[1..], up, level)
    requires NodeAt(ns[0], es[0], up, NextIn(ns, 0), level)
    requires |ns| > 1 ==> ns[0].pos < ns[1].pos
    ensures ListOk(ns, es, up, level)
  {
    forall j | 0 <= j < |ns|
      ensures NodeAt(ns[j], es[j], up, NextIn(ns, j), level)
    {
      if j > 0 {
        assert NodeAt(ns[1..][j - 1], es[1..][j - 1], up, NextIn(ns[1..], j - 1), level);
      }
    }
    forall i, j | 0 <= i < j < |ns|
      ensures ns[i].pos < ns[j].pos
    {
      assert j > 1 ==> ns[1..][0].pos < ns[1..][j - 1].pos;
      if i > 0 {
        assert ns[1..][i - 1].pos < ns[1..][j - 1].pos;
      }
    }
  }

  lemma ListFirst(ns: seq<Node>, es: seq<Ent>, up: Node, level: int)
    requires ListOk(ns, es, up, level) && ns != []
    ensures NodeAt(ns[0], es[0], up, NextIn(ns, 0), level) && (|ns| > 1 ==> ns[0].pos < ns[1].pos)
  {
  }

  lemma ListLevels(ns: seq<Node>, es: seq<Ent>, up: Node, level: int)
    requires ListOk(ns, es, up, level)
    ensures forall j | 0 <= j < |ns| :: ns[j].level == level && ns[j].parent == up && ns[j].link == NextIn(ns, j)
    ensures forall j | 1 <= j < |ns| :: ns[j] != ns[0]
  {
    forall j | 0 <= j < |ns|
      ensures ns[j].level == level && ns[j].parent == up && ns[j].link == NextIn(ns, j)
    {
      assert NodeAt(ns[j], es[j], up, NextIn(ns, j), level);
    }
  }

  function Nodes(r: Row): seq<Ent> {
    [r.head] + r.rest
  }

  /** Each node stands for its entry, whatever it is linked to. */
  ghost predicate StandFor(ns: seq<Node>, es: seq<Ent>, up: Node, level: int)
    reads ns
  {
    |ns| == |es| && forall j | 0 <= j < |ns| :: NodeAt(ns[j], es[j], up, ns[j].link, level) && ns[j].instr == NOINSTR
  }

  ghost predicate Unlike(ns: seq<Node>) {
    forall i, j | 0 <= i < j < |ns| :: ns[i] != ns[j]
  }

  lemma Unsorted(ns: seq<Node>, es: seq<Ent>, up: Node, level: int)
    requires ListOk(ns, es, up, level) && Quiet(ns)
    ensures StandFor(ns, es, up, level) && Unlike(ns)
  {
    forall j | 0 <= j < |ns|
      ensures NodeAt(ns[j], es[j], up, ns[j].link, level)
    {
      assert NodeAt(ns[j], es[j], up, NextIn(ns, j), level);
    }
  }

  lemma Resorted(ns: seq<Node>, es: seq<Ent>, up: Node, level: int)
    requires StandFor(ns, es, up, level) && forall j | 0 <= j < |ns| :: ns[j].link == NextIn(ns, j) && ns[j].pos == j
    ensures ListOk(ns, es, up, level) && Quiet(ns)
  {
  }

  /** The pointers of a list, collected along its links. */
  method Collect(head: Node, ghost ns: seq<Node>, ghost es: seq<Ent>, ghost up: Node, ghost level: int)
    returns (arr: seq<Node>, keys: seq<Key>)
    requires ListOk(ns, es, up, level) && ns != [] && head == ns[0]
    ensures arr == ns && keys == Keys(es)
  {
    arr, keys := [], [];
    var p: Node? := head;
    assert es[0..] == es && [] + Keys(es) == Keys(es);
    while p != null
      invariant |arr| <= |ns| && arr == ns[..|arr|] && p == (if |arr| < |ns| then ns[|arr|] else null)
      invariant keys + Keys(es[|arr|..]) == Keys(es)
      decreases |ns| - |arr|
    {
      ghost var j := |arr|;
      assert NodeAt(ns[j], es[j], up, NextIn(ns, j), level);
      KeysStep(es[j..], keys);
      assert es[j..][1..] == es[j + 1..];
      arr, keys := arr + [p], keys + [Key(p.name, p.info, p.id)];
      p := p.link;
    }
    assert es[|arr|..] == [] && keys + [] == keys;
  }

  lemma KeysStep(es: seq<Ent>, keys: seq<Key>)
    requires es != []
    ensures keys + Keys(es) == keys + [Key(es[0].name, es[0].info, es[0].id)] + Keys(es[1..])
  {
  }

  /** Put each pointer where sorting puts it. */
  method Arrange(arr: seq<Node>, o: seq<nat>, ghost es: seq<Ent>, ghost up: Node, ghost level: int)
    returns (r: seq<Node>)
    requires StandFor(arr, es, up, level) && Unlike(arr) && Permutation(o, |arr|)
    ensures StandFor(r, Arranged(es, o), up, level) && Unlike(r) && |r| == |arr|
    ensures forall n | n in r :: n in arr
  {
    r := [];
    for i := 0 to |o|
      invariant |r| == i && forall j | 0 <= j < i :: r[j] == arr[o[j]]
    {
      r := r + [arr[o[i]]];
    }
    ghost var es' := Arranged(es, o);
    forall j | 0 <= j < |r|
      ensures NodeAt(r[j], es'[j], up, r[j].link, level) && r[j].instr == NOINSTR
    {
      assert NodeAt(arr[o[j]], es[o[j]], up, arr[o[j]].link, level);
    }
  }

  /** Link the nodes in the order of the array. */
  method Relink(arr: seq<Node>, ghost es: seq<Ent>, ghost up: Node, ghost level: int, ghost all: set<Node>)
    requires StandFor(arr, es, up, level) && Unlike(arr) && forall m | m in arr :: m in all
    modifies all
    ensures ListOk(arr, es, up, level) && Quiet(arr)
  {
    for i := 0 to |arr|
      invariant StandFor(arr, es, up, level)
      invariant forall j | 0 <= j < i :: arr[j].link == NextIn(arr, j) && arr[j].pos == j
    {
      arr[i].link := if i + 1 < |arr| then arr[i + 1] else null;
      arr[i].pos := i;
    }
    Resorted(arr, es, up, level);
  }

  class Fts {
    const w: World
    var cur: Node?
    var buf: array<char>
    var dev: int
    /** The parent of the roots; the nodes from the root's row down, and what they stand for. */
    const top: Node
    ghost var rows: seq<seq<Node>>
    ghost var repr: set<Node>
    ghost var st: State

    constructor (w: World, size: nat)
      requires size > 0
      ensures this.w == w && cur == null && rows == [] && repr == {} && st == State([], 0) && dev == 0
      ensures fresh(top) && fresh(buf) && buf.Length == size && top.level == -1 && Holds(buf, "")
    {
      var parent := new Node("", "");
      parent.level := -1;
      var space := new char[size];
      space[0] := NUL;
      this.w := w;
      top, buf, cur, dev := parent, space, null, 0;
      rows, repr, st := [], {}, State([], 0);
    }

    ghost function UpOf(k: int): Node
      reads this`rows
    {
      if 0 < k <= |rows| && rows[k - 1] != [] then rows[k - 1][0] else top
    }

    ghost predicate Linked()
      reads this`cur, this`rows, this`repr, this`st, repr, top
    {
      && top.level == -1
      && |rows| == |st.rows|
      && (cur == null <==> rows == [])
      && (forall k, j | 0 <= k < |rows| && 0 <= j < |rows[k]| :: rows[k][j] in repr)
      && (forall k | 0 <= k < |rows| :: ListOk(rows[k], Nodes(st.rows[k]), UpOf(k), k))
      && (rows != [] ==> cur == rows[|rows| - 1][0])
    }

    /** The node at the head of a row. */
    lemma HeadAt(k: nat)
      requires Linked() && k < |rows|
      ensures rows[k] != [] && NodeAt(rows[k][0], st.rows[k].head, UpOf(k), NextIn(rows[k], 0), k)
      ensures rows[k][0] in repr
    {
      assert ListOk(rows[k], Nodes(st.rows[k]), UpOf(k), k);
    }

    /** The current node is looked at again: only what is known about it changes. */
    method Mark(info: Info, errno: int, id: FileId)
      requires Linked() && cur != null
      modifies this`st, cur`info, cur`errno, cur`id
      ensures Linked()
      ensures cur.Val() == old(cur.Val()).(info := info, errno := errno, id := id)
      ensures st == old(st).(rows := SetHead(old(st.rows), cur.Val()))
    {
      hide ListOk;
      ghost var last := |rows| - 1;
      ghost var ns, es := rows[last], Nodes(st.rows[last]);
      HeadAt(last);
      Apart();
      ListTail(ns, es, UpOf(last), last);
      ListFirst(ns, es, UpOf(last), last);
      cur.info := info;
      cur.errno := errno;
      cur.id := id;
      st := st.(rows := SetHead(st.rows, cur.Val()));
      ghost var es' := Nodes(st.rows[last]);
      assert es'[1..] == es[1..];
      ListCons(ns, es', UpOf(last), last);
    }

    /** The current node is in its row only, and at its front only. */
    lemma Apart()
      requires Linked() && cur != null
      ensures forall k, j | 0 <= k < |rows| && 0 <= j < |rows[k]| && (k < |rows| - 1 || j > 0) :: rows[k][j] != cur
    {
      hide ListOk;
      forall k, j | 0 <= k < |rows| && 0 <= j < |rows[k]| && (k < |rows| - 1 || j > 0)
        ensures rows[k][j] != cur
      {
        ListLevels(rows[k], Nodes(st.rows[k]), UpOf(k), k);
        HeadAt(|rows| - 1);
      }
    }

    /** Back to the directory the current row belongs to. */
    method Rise()
      requires Linked() && |rows| > 1
      modifies this`cur, this`rows, this`st
      ensures Linked() && rows == old(rows[..|rows| - 1]) && cur == old(cur.parent)
      ensures st == old(st).(rows := old(st.rows[..|st.rows| - 1]))
    {
      hide ListOk;
      HeadAt(|rows| - 1);
      HeadAt(|rows| - 2);
      cur := cur.parent;
      rows := rows[..|rows| - 1];
      st := st.(rows := st.rows[..|st.rows| - 1]);
    }

    /** On to the next node beside the current one. */
    method Beside()
      requires Linked() && rows != [] && st.rows[|rows| - 1].rest != []
      modifies this`cur, this`rows, this`st
      ensures Linked() && cur != null && cur == old(cur.link) && |rows| == old(|rows|)
      ensures rows == old(rows[|rows| - 1 := rows[|rows| - 1][1..]])
      ensures var r := old(st.rows[|st.rows| - 1]);
              st == old(st).(rows := old(st.rows[|st.rows| - 1 := Row(r.rest[0], r.rest[1..])]))
    {
      hide ListOk;
      ghost var last := |rows| - 1;
      ghost var ns, es := rows[last], Nodes(st.rows[last]);
      HeadAt(last);
      RowSize(last);
      ListTail(ns, es, UpOf(last), last);
      cur := cur.link;
      rows := rows[last := ns[1..]];
      ghost var r := st.rows[last];
      st := st.(rows := st.rows[last := Row(r.rest[0], r.rest[1..])]);
      assert Nodes(st.rows[last]) == es[1..];
    }

    lemma RowSize(k: nat)
      requires Linked() && k < |rows|
      ensures |rows[k]| == 1 + |st.rows[k].rest|
    {
      assert ListOk(rows[k], Nodes(st.rows[k]), UpOf(k), k);
    }

    /** Into a list of nodes below the current one. */
    method Enter(head: Node, ghost ns: seq<Node>, ghost es: seq<Ent>)
      requires Linked() && cur != null && ns != [] && head == ns[0] && es != [] && ListOk(ns, es, cur, |rows|)
      modifies this`cur, this`rows, this`st, this`repr
      ensures Linked() && cur == head && rows == old(rows) + [ns]
      ensures st == old(st).(rows := old(st.rows) + [Row(es[0], es[1..])])
      ensures repr == old(repr) + set n | n in ns
    {
      hide ListOk;
      HeadAt(|rows| - 1);
      cur := head;
      repr := repr + set n | n in ns;
      rows := rows + [ns];
      st := st.(rows := st.rows + [Row(es[0], es[1..])]);
      assert Nodes(Row(es[0], es[1..])) == es;
    }

    /** Whether a directory with this identity is on the way up from p. */
    method OnTheWay(p: Node, id: FileId, ghost k: nat) returns (t: Node?)
      requires Linked() && k <= |rows| && p.parent == UpOf(k)
      ensures t != null <==> id in Above(st.rows[..k])
    {
      hide ListOk, Above, Linked, UpOf;
      ghost var i := k;
      UpAt(k);
      AboveBelow(st.rows, k);
      var next := p.parent;
      while next.level >= 0
        invariant 0 <= i <= k && next == UpOf(i) && next != null && (next.level >= 0 <==> i > 0)
        invariant forall j | i <= j < k :: st.rows[j].head.id != id
        decreases i
      {
        UpAt(i);
        UpAt(i - 1);
        if id == next.id {
          return next;
        }
        next := next.parent;
        i := i - 1;
      }
      t := null;
    }

    /** A directory on the way down: the head of the row above. */
    lemma UpAt(k: nat)
      requires Linked() && k <= |rows|
      ensures |rows| == |st.rows| && (UpOf(k).level >= 0 <==> k > 0)
      ensures k > 0 ==> UpOf(k).parent == UpOf(k - 1) && UpOf(k).id == st.rows[k - 1].head.id
    {
      hide ListOk;
      if k > 0 {
        HeadAt(k - 1);
      }
    }

    /** The current node. */
    lemma CurAt()
      requires Linked() && cur != null
      ensures |rows| == |st.rows| > 0 && cur == UpOf(|rows|) && cur in repr
      ensures cur.level == |rows| - 1 && cur.Val() == st.rows[|rows| - 1].head && cur.pathLen == |cur.path|
      ensures cur.parent == UpOf(|rows| - 1)
    {
      hide ListOk;
      HeadAt(|rows| - 1);
    }

    /** Look at a node's file: fts_stat, for a node below the first k rows' heads. */
    method Look(p: Node, path: string, follow: bool, ghost k: nat) returns (info: Info, errno: int, id: FileId)
      requires Linked() && k <= |rows| && p.parent == UpOf(k) && path == p.path
      ensures p.Val().(info := info, errno := errno, id := id) == Stated(w, p.Val(), follow, Above(st.rows[..k]))
      ensures Kind(w, p.Val().(info := info, errno := errno, id := id), p.name == "." || p.name == "..", follow,
                   Above(st.rows[..k]))
    {
      StatedTold(w, p.Val(), follow, Above(st.rows[..k]));
      hide ListOk, Above, Linked, Kind;
      info, errno, id := p.info, p.errno, p.id;
      match (if w.opts.logical || follow then w.fs.stat(path) else w.fs.lstat(path))
      case Missing(e) =>
        if (w.opts.logical || follow) && !w.fs.lstat(path).Missing? {
          info := SLNONE;
        } else {
          info, errno := NS, e;
        }
      case Directory(i) =>
        id := i;
        if IsDot(p.name) {
          info := DOT;
        } else {
          var t := OnTheWay(p, i, k);
          info := if t != null then DC else D;
        }
      case Symlink => info := SL;
      case Regular => info := F;
      case Special => info := DEFAULT;
    }

    /** Make the path buffer hold n characters and a NUL from position at on. */
    method MakeRoom(at: nat, n: nat)
      requires at <= buf.Length
      modifies this`buf
      ensures buf.Length >= at + n + 1 && buf[..at] == old(buf[..at]) && (buf == old(buf) || fresh(buf))
      ensures buf.Length >= old(buf).Length
    {
      if n < buf.Length - at {
        return;
      }
      var space := new char[at + n + 1];
      var i := 0;
      while i < at
        modifies space
        invariant 0 <= i <= at && space[..i] == buf[..i]
      {
        space[i] := buf[i];
        i := i + 1;
      }
      buf := space;
    }

    /** Write a name and a NUL into the path buffer from position at on. */
    method WriteName(at: nat, name: string)
      requires at + |name| < buf.Length && NoNul(buf[..at] + name)
      modifies buf
      ensures Holds(buf, old(buf[..at]) + name)
    {
      var i := 0;
      while i < |name|
        invariant 0 <= i <= |name| && buf[..at] == old(buf[..at]) && buf[at..at + i] == name[..i]
      {
        buf[at + i] := name[i];
        i := i + 1;
      }
      buf[at + |name|] := NUL;
      assert buf[..at + |name|] == buf[..at] + buf[at..at + |name|];
    }

    /** A new node for a name read from the current directory, looked at. */
    method NewChild(name: string, cp: nat, ghost pos: nat) returns (p: Node)
      requires Linked() && cur != null && PathText(cur.path) && IsName(name)
      requires cp <= buf.Length && buf[..cp] == DirText(cur.path)
      modifies this`buf, buf
      ensures Linked() && fresh(p) && p.pos == pos && p.instr == NOINSTR
      ensures NodeAt(p, Child(w, cur.Val(), Above(st.rows), name), cur, null, |rows|)
      ensures (buf == old(buf) || fresh(buf)) && buf.Length >= old(buf).Length
      ensures cp < buf.Length && buf[..cp] == DirText(cur.path) &&
              |Child(w, cur.Val(), Above(st.rows), name).path| < buf.Length
    {
      hide ListOk, Above, DirText, NoNul, IsName, Linked, UpOf, CText, ChildPath, Kind, Stated;
      ghost var path := ChildPath(cur.path, name);
      CurAt();
      PutName(name, cp);
      p := Blank(name, path, cp + |name|, pos);
      assert st.rows[..|rows|] == st.rows;
      var info, errno, id := Look(p, CText(buf[..]), false, |rows|);
      p.info, p.errno, p.id := info, errno, id;
    }

    /** A node below the current one, not looked at yet. */
    method Blank(name: string, ghost path: string, pathLen: nat, ghost pos: nat) returns (p: Node)
      requires cur != null && pathLen == |path|
      ensures fresh(p) && p.pos == pos && p.instr == NOINSTR && p.path == path && p.parent == cur
      ensures NodeAt(p, Ent(name, path, cur.level + 1, INIT, NOID, 0), cur, null, cur.level + 1)
    {
      p := new Node(name, path);
      p.level := cur.level + 1;
      p.pathLen := pathLen;
      p.parent := cur;
      p.pos := pos;
    }

    /** The path of a name in the current directory, in the path buffer. */
    method PutName(name: string, cp: nat)
      requires cur != null && PathText(cur.path) && IsName(name)
      requires cp <= buf.Length && buf[..cp] == DirText(cur.path)
      modifies this`buf, buf
      ensures (buf == old(buf) || fresh(buf)) && buf.Length >= old(buf).Length
      ensures cp < buf.Length && buf[..cp] == DirText(cur.path)
      ensures CText(buf[..]) == ChildPath(cur.path, name) && |ChildPath(cur.path, name)| == cp + |name|
      ensures Holds(buf, ChildPath(cur.path, name))
    {
      hide DirText, NoNul, IsName, CText;
      ghost var path := ChildPath(cur.path, name);
      JoinText(cur.path, name);
      MakeRoom(cp, |name|);
      WriteName(cp, name);
      HoldsText(buf, path);
      assert buf[..cp] == path[..cp];
    }

    /** The nodes of the directory entries, linked in the order they are read. */
    method ReadNames(names: seq<string>, cp: nat) returns (head: Node?, n: nat, ghost ns: seq<Node>, ghost es: seq<Ent>)
      requires Linked() && cur != null && PathText(cur.path) && AllNames(names)
      requires cp <= buf.Length && buf[..cp] == DirText(cur.path)
      modifies this`buf, buf
      ensures Linked() && ListOk(ns, es, cur, |rows|) && Quiet(ns) && n == |ns|
      ensures es == Children(w, cur.Val(), Above(st.rows), Seen(w, names))
      ensures head == if ns == [] then null else ns[0]
      ensures (buf == old(buf) || fresh(buf)) && buf.Length >= old(buf).Length
      ensures cp <= buf.Length && buf[..cp] == DirText(cur.path) && (n > 0 ==> cp < buf.Length)
      ensures forall m | m in ns :: fresh(m)
      ensures EntsFit(es, buf.Length)
    {
      hide Above, DirText, NoNul, IsName, Linked, PathText, Children, Seen, ListOk, NodeAt, EntsFit, Child, IsDot;
      FitNone(buf.Length);
      head, n, ns, es := null, 0, [], [];
      var last: Node? := null;
      ListNone(cur, |rows|);
      assert names[0..] == names;
      ghost var c, above := cur.Val(), Above(st.rows);
      ghost var all := Children(w, c, above, Seen(w, names));
      assert [] + all == all;
      for i := 0 to |names|
        invariant Linked() && n == |ns| == |es| && ListOk(ns, es, cur, |rows|)
        invariant forall j | 0 <= j < |ns| :: ns[j].pos == j && ns[j].instr == NOINSTR && fresh(ns[j])
        invariant head == (if ns == [] then null else ns[0]) && last == (if ns == [] then null else ns[n - 1])
        invariant all == es + Children(w, c, above, Seen(w, names[i..]))
        invariant (buf == old(buf) || fresh(buf)) && buf.Length >= old(buf).Length
        invariant cp <= buf.Length && buf[..cp] == DirText(cur.path) && (n > 0 ==> cp < buf.Length)
        invariant cur.Val() == c && PathText(cur.path) && EntsFit(es, buf.Length)
      {
        ghost var room := buf.Length;
        SeenStep(w, c, above, names[i..], es);
        assert names[i..][1..] == names[i + 1..];
        if w.opts.seedot || !IsDot(names[i]) {
          var p := NewChild(names[i], cp, n);
          ghost var e := Child(w, c, above, names[i]);
          AppendOrStart(last, p, ns, es, e, cur, |rows|);
          FitMore(es, e, room, buf.Length);
          head := if head == null then p else head;
          last := p;
          n := n + 1;
          ns, es := ns + [p], es + [e];
        }
      }
      SeenEnd(w, c, above, names[|names|..], es);
    }

    /** fts_sort: the list again, in the order of the caller's comparison. */
    method Sort(head0: Node, n: nat, ghost ns0: seq<Node>, ghost es: seq<Ent>, ghost up: Node, ghost level: int,
                ghost all: set<Node>)
      returns (head: Node, ghost ns: seq<Node>)
      requires ListOk(ns0, es, up, level) && Quiet(ns0) && n == |ns0| > 0 && head0 == ns0[0] && Permutes(w.sort)
      requires forall m | m in ns0 :: m in all
      modifies all
      ensures ListOk(ns, Sorted(w, es), up, level) && Quiet(ns) && |ns| == n && head == ns[0]
      ensures forall m | m in ns :: m in ns0
    {
      hide ListOk, Quiet, Permutation, Permutes, Sorted;
      ListCount(ns0, es, up, level);
      SortedBy(w, es);
      if !w.sorted || n <= 1 {
        return head0, ns0;
      }
      var arr, keys := Collect(head0, ns0, es, up, level);
      head, ns := SortArray(arr, w.sort(keys), es, up, level, all);
    }

    /** Where a name goes behind a node's path in the buffer: NAPPEND, and the slash. */
    method AppendSlash(pathLen: nat, ghost path: string) returns (cp: nat)
      requires path != "" && pathLen == |path| < buf.Length && buf[..|path|] == path
      modifies buf
      ensures cp == |DirText(path)| <= buf.Length && buf[..cp] == DirText(path) && |path| <= cp
    {
      assert buf[pathLen - 1] == path[pathLen - 1];
      var len := if buf[pathLen - 1] == '/' then pathLen - 1 else pathLen;
      assert buf[..len] == path[..len];
      buf[len] := '/';
      cp := len + 1;
      assert buf[..cp] == path[..len] + "/";
    }

    /** Read the current directory into a list of nodes, fts_build: without one the directory is
        unreadable or has nothing in it. */
    method Build() returns (head: Node?, ghost ns: seq<Node>, ghost es: seq<Ent>)
      requires Linked() && cur != null && Sane(w.fs) && Permutes(w.sort) && PathText(cur.path) && Holds(buf, cur.path)
      modifies this`buf, this`st, cur`info, cur`errno, cur`id, buf
      ensures Linked() && (buf == old(buf) || fresh(buf)) && buf.Length >= old(buf).Length
      ensures head == null ==> st == old(st).(rows := SetHead(old(st.rows), cur.Val()))
      ensures var l := w.fs.list(cur.path);
              && (l.Unreadable? ==> head == null && cur.Val() == old(cur.Val()).(info := DNR, errno := l.errno)
                                    && Holds(buf, cur.path))
              && (l.Entries? && Seen(w, l.names) == [] ==>
                    head == null && cur.Val() == old(cur.Val()).(info := DP) && Holds(buf, Trimmed(cur.path)))
      ensures var l := w.fs.list(cur.path); l.Entries? && Seen(w, l.names) != [] ==>
                && head != null && st == old(st) && cur.Val() == old(cur.Val()) && ns != [] && head == ns[0]
                && ListOk(ns, es, cur, |rows|) && Quiet(ns) && (forall m | m in ns :: fresh(m))
                && es == Sorted(w, Children(w, cur.Val(), Above(st.rows), Seen(w, l.names)))
                && |DirText(cur.path)| < buf.Length && buf[..|DirText(cur.path)|] == DirText(cur.path)
                && EntsFit(es, buf.Length)
    {
      hide Above, DirText, NoNul, IsName, Linked, Children, Seen, ListOk, Sorted, Permutes, CText, Quiet, EntsFit,
           AllNames, Sane, SetHead;
      ns, es := [], [];
      HoldsText(buf, cur.path);
      CurAt();
      match w.fs.list(CText(buf[..]))
      case Unreadable(errno) =>
        Mark(DNR, errno, cur.id);
        return null, ns, es;
      case Entries(names) =>
        NamesOk(w.fs, cur.path);
        var cp := AppendSlash(cur.pathLen, cur.path);
        var first, n, ns0, es0 := ReadNames(names, cp);
        ChildCount(w, cur.Val(), Above(st.rows), names);
        ListCount(ns0, es0, cur, |rows|);
        if first == null {
          EndPath(cp);
          Mark(DP, cur.errno, cur.id);
          return null, ns, es;
        }
        buf[cp] := NUL;
        head, ns := Sort(first, n, ns0, es0, cur, |rows|, set m | m in ns0);
        es := Sorted(w, es0);
        FitSorted(w, es0, buf.Length);
    }

    /** Nothing was read: the buffer ends where it did, without a slash at its end. */
    method EndPath(cp: nat)
      requires cur != null && PathText(cur.path) && 0 < cp == |DirText(cur.path)| <= buf.Length
      requires buf[..cp] == DirText(cur.path)
      modifies buf
      ensures Holds(buf, Trimmed(cur.path))
    {
      buf[cp - 1] := NUL;
      TrimmedText(cur.path);
      assert buf[..cp - 1] == DirText(cur.path)[..cp - 1];
    }

    /** The user's instruction for the current node, which is forgotten. */
    method TakeInstr() returns (instr: Instr)
      requires Linked() && cur != null
      modifies cur`instr
      ensures Linked() && instr == old(cur.instr)
    {
      hide ListOk;
      ghost var last := |rows| - 1;
      ghost var ns, es := rows[last], Nodes(st.rows[last]);
      HeadAt(last);
      Apart();
      ListTail(ns, es, UpOf(last), last);
      ListFirst(ns, es, UpOf(last), last);
      instr := cur.instr;
      cur.instr := NOINSTR;
      ListCons(ns, es, UpOf(last), last);
    }

    /** The current node's path behind its directory's in the buffer. */
    method SpellName(ghost dir: string, parentLen: nat)
      requires cur != null && PathText(dir) && BelowOk(dir, cur.Val()) && parentLen == |dir| < buf.Length
      requires buf[..|dir|] == dir && |DirText(dir)| + |cur.name| < buf.Length
      modifies buf
      ensures Holds(buf, cur.path)
    {
      hide NoNul, DirText, IsName;
      var cp := AppendSlash(parentLen, dir);
      JoinText(dir, cur.name);
      WriteName(cp, cur.name);
    }

    /** Into the current directory, for its first node; or past it. */
    method GoInto(instr: Instr)
      requires Linked() && cur != null && cur.info == D && Sane(w.fs) && Permutes(w.sort) && Spelled(st.rows)
      requires instr != AGAIN && Holds(buf, cur.path) && st.dev == dev && AllFit(st.rows, buf.Length)
      modifies this`buf, this`st, this`cur, this`rows, this`repr, buf, cur`info, cur`errno, cur`id
      ensures Linked() && cur != null && Into(w, old(st), instr) == Turn(Some(cur.Val()), st) && st.dev == dev
      ensures AllFit(st.rows, buf.Length) && (buf == old(buf) || fresh(buf)) && fresh(repr - old(repr))
      ensures Holds(buf, if Emptied(w, old(st), instr) then Trimmed(cur.path) else cur.path)
    {
      hide Above, DirText, NoNul, IsName, Linked, Children, Seen, ListOk, Sorted, Permutes, Quiet, EntsFit, Spelled,
           AllFit, Sane, Into, PathText, UpOf;
      CurAt();
      HeadText(st.rows);
      IntoCases(w, st, instr);
      if instr == SKIP || (w.opts.xdev && cur.id.dev != dev) {
        FitHead(st.rows, cur.Val().(info := DP), buf.Length);
        Mark(DP, cur.errno, cur.id);
      } else {
        ReadInto(instr);
      }
    }

    method ReadInto(ghost instr: Instr)
      requires Linked() && cur != null && cur.info == D && Sane(w.fs) && Permutes(w.sort) && PathText(cur.path)
      requires instr != SKIP && instr != AGAIN && !Crosses(w, st.dev, cur.Val())
      requires Holds(buf, cur.path) && AllFit(st.rows, buf.Length)
      modifies this`buf, this`st, this`cur, this`rows, this`repr, buf, cur`info, cur`errno, cur`id
      ensures Linked() && cur != null && old(st.rows) != [] && Into(w, old(st), instr) == Turn(Some(cur.Val()), st)
      ensures st.dev == old(st.dev)
      ensures AllFit(st.rows, buf.Length) && (buf == old(buf) || fresh(buf)) && fresh(repr - old(repr))
      ensures Holds(buf, if Emptied(w, old(st), instr) then Trimmed(cur.path) else cur.path)
    {
      hide Above, DirText, NoNul, IsName, Linked, Children, Seen, ListOk, Sorted, Permutes, Quiet, EntsFit,
           AllFit, Sane, Into, PathText, UpOf;
      CurAt();
      IntoCases(w, st, instr);
      ghost var st0 := st;
      ghost var room := buf.Length;
      var head, ns, es := Build();
      if head == null {
        FitHead(st0.rows, cur.Val(), room);
        FitRoom(st.rows, room, buf.Length);
      } else {
        GoDown(head, ns, es, cur.path, room);
      }
    }

    /** To the first of the nodes read, its path in the buffer. */
    method GoDown(head: Node, ghost ns: seq<Node>, ghost es: seq<Ent>, ghost dir: string, ghost room: nat)
      requires Linked() && cur != null && ns != [] && head == ns[0] && ListOk(ns, es, cur, |rows|)
      requires PathText(cur.path) && dir == cur.path && AllBelow(dir, es) && EntsFit(es, buf.Length)
      requires AllFit(st.rows, room) && room <= buf.Length
      requires |DirText(dir)| < buf.Length && buf[..|DirText(dir)|] == DirText(dir)
      requires forall m | m in ns :: m !in repr
      modifies this`st, this`cur, this`rows, this`repr, buf
      ensures Linked() && cur == head && repr == old(repr) + set n | n in ns
      ensures es != [] && cur.Val() == es[0] && st == old(st).(rows := old(st.rows) + [Row(es[0], es[1..])])
      ensures AllFit(st.rows, buf.Length) && Holds(buf, cur.path)
    {
      hide DirText, NoNul, IsName, Linked, ListOk, EntsFit, AllFit;
      ListCount(ns, es, cur, |rows|);
      ListFirst(ns, es, cur, |rows|);
      CurAt();
      var parentLen := cur.pathLen;
      FitDown(st.rows, es, room, buf.Length);
      Enter(head, ns, es);
      DirPrefix(dir);
      assert buf[..|dir|] == DirText(dir)[..|dir|];
      FitFirst(es, buf.Length);
      SpellName(dir, parentLen);
    }

    /** Give the current root the name it is visited under. */
    method Rename(name: string, ghost device: int)
      requires Linked() && cur != null && cur.name == cur.path
      modifies this`st, cur`name, cur`pathLen
      ensures Linked() && cur.Val() == old(cur.Val()).(name := name)
      ensures st == State(SetHead(old(st.rows), cur.Val()), device)
    {
      hide ListOk;
      ghost var last := |rows| - 1;
      ghost var ns, es := rows[last], Nodes(st.rows[last]);
      HeadAt(last);
      Apart();
      ListTail(ns, es, UpOf(last), last);
      ListFirst(ns, es, UpOf(last), last);
      cur.pathLen := |cur.name|;
      cur.name := name;
      st := State(SetHead(st.rows, cur.Val()), device);
      ghost var es' := Nodes(st.rows[last]);
      assert es'[1..] == es[1..];
      ListCons(ns, es', UpOf(last), last);
    }

    /** Start on a root: its path into the buffer, the last component as its name, its device. */
    method Load()
      requires Linked() && cur != null && cur.name == cur.path && PathText(cur.path) && |cur.path| < buf.Length
      modifies this`st, this`dev, cur`name, cur`pathLen, buf
      ensures Linked() && cur.Val() == Loaded(old(cur.Val())) && Holds(buf, cur.path) && dev == cur.id.dev
      ensures st == State(SetHead(old(st.rows), cur.Val()), dev)
    {
      hide Linked, NoNul;
      assert buf[..0] + cur.name == cur.name;
      WriteName(0, cur.name);
      var name := cur.name;
      var n := FindBase(name);
      Rename(if n == 0 || (n == 1 && |name| == 1) then name else name[n..], cur.id.dev);
      dev := cur.id.dev;
    }

    /** The next root. */
    method NextRoot()
      requires Linked() && |rows| == 1 && st.rows[0].rest != [] && Spelled(st.rows) && AllFit(st.rows, buf.Length)
      requires cur != null && cur.link in repr
      modifies this`cur, this`rows, this`st, this`dev, buf, repr
      ensures Linked() && cur != null && Onward(w, old(st)) == Turn(Some(cur.Val()), st)
      ensures AllFit(st.rows, buf.Length) && Holds(buf, cur.path) && dev == cur.id.dev && st.dev == dev
      ensures cur == old(cur.link)
    {
      hide Linked, ListOk, Loaded, Above;
      CurAt();
      ghost var r := st.rows[0];
      FitRest(st.rows, buf.Length);
      FirstRoot(st.rows, buf.Length);
      Beside();
      CurAt();
      Load();
      assert st.rows == [Row(Loaded(r.rest[0]), r.rest[1..])];
      LoadedFits(r.rest, buf.Length);
    }

    /** The next node of the same directory. */
    method NextBeside()
      requires Linked() && |rows| > 1 && st.rows[|rows| - 1].rest != [] && Spelled(st.rows)
      requires cur != null && AllFit(st.rows, buf.Length) && Holds(buf, cur.path)
      modifies this`cur, this`rows, this`st, buf
      ensures Linked() && cur != null && Onward(w, old(st)) == Turn(Some(cur.Val()), st)
      ensures AllFit(st.rows, buf.Length) && Holds(buf, cur.path) && cur == old(cur.link) && st.dev == old(st.dev)
    {
      hide Linked, ListOk, Above, EntsFit, AllFit, DirText, IsName, NoNul, PathText;
      CurAt();
      ghost var dir := st.rows[|rows| - 2].head.path;
      var parent := cur.parent;
      ParentFacts();
      BesideFacts(st.rows, buf.Length);
      FitRest(st.rows, buf.Length);
      assert buf[..|dir|] == cur.path[..|dir|];
      Beside();
      CurAt();
      SpellName(dir, parent.pathLen);
    }

    /** The directory the current node is in. */
    lemma ParentFacts()
      requires Linked() && cur != null && |rows| > 1
      ensures |rows| == |st.rows| && cur.parent != null && cur.parent.pathLen == |st.rows[|rows| - 2].head.path|
      ensures cur.parent.Val() == st.rows[|rows| - 2].head && cur.parent == UpOf(|rows| - 1) && cur.parent in repr
    {
      hide ListOk;
      HeadAt(|rows| - 1);
      HeadAt(|rows| - 2);
    }

    /** Up to the directory itself, for its second visit. */
    method GoUp()
      requires Linked() && |rows| > 1 && st.rows[|rows| - 1].rest == [] && Spelled(st.rows)
      requires cur != null && AllFit(st.rows, buf.Length) && Holds(buf, cur.path)
      modifies this`cur, this`rows, this`st, buf, repr
      ensures Linked() && cur != null && Onward(w, old(st)) == Turn(Some(cur.Val()), st)
      ensures AllFit(st.rows, buf.Length) && Holds(buf, cur.path) && st.dev == old(st.dev)
    {
      hide Linked, ListOk, Above, EntsFit, AllFit, DirText, IsName, NoNul, PathText;
      CurAt();
      ghost var dir := st.rows[|rows| - 2].head.path;
      ParentFacts();
      UpFacts(st.rows, buf.Length);
      ghost var text := cur.path;
      Rise();
      CurAt();
      buf[cur.pathLen] := NUL;
      assert buf[..|dir|] == text[..|dir|];
      FitHead(st.rows, Done(cur.Val()), buf.Length);
      Mark(if cur.errno != 0 then ERR else DP, cur.errno, cur.id);
    }

    /** What the current node is linked to. */
    lemma LinkFacts()
      requires Linked() && cur != null
      ensures |rows| == |st.rows| > 0 && (cur.link == null <==> st.rows[|rows| - 1].rest == [])
      ensures cur.link != null ==> cur.link in repr && (cur.link.level == 0 <==> |rows| == 1)
      ensures cur.parent != null && (cur.parent.level == -1 <==> |rows| == 1)
    {
      hide ListOk;
      HeadAt(|rows| - 1);
      RowSize(|rows| - 1);
      ListLevels(rows[|rows| - 1], Nodes(st.rows[|rows| - 1]), UpOf(|rows| - 1), |rows| - 1);
      if |rows| > 1 {
        HeadAt(|rows| - 2);
      }
    }

    /** Past the current node. */
    method GoOnward() returns (p: Node?)
      requires Linked() && cur != null && Spelled(st.rows) && AllFit(st.rows, buf.Length) && st.dev == dev
      requires |rows| > 1 ==> Holds(buf, cur.path)
      modifies this`cur, this`rows, this`st, this`dev, buf, repr
      ensures Linked() && p == cur && st.dev == dev && old(st.rows) != []
      ensures Onward(w, old(st)) == Turn(if p == null then None else Some(p.Val()), st)
      ensures AllFit(st.rows, buf.Length) && (p != null ==> Holds(buf, p.path))
    {
      hide Linked, ListOk, Loaded, Above, Spelled, EntsFit;
      CurAt();
      LinkFacts();
      p := cur.link;
      if p != null {
        if p.level == 0 {
          NextRoot();
        } else {
          NextBeside();
        }
        return cur;
      }
      p := cur.parent;
      if p.level == -1 {
        Finish();
        return null;
      }
      GoUp();
      return cur;
    }

    /** Nothing is left. */
    method Finish()
      requires Linked() && cur != null
      modifies this`cur, this`rows, this`st
      ensures Linked() && cur == null && st == old(st).(rows := [])
    {
      cur := null;
      rows := [];
      st := st.(rows := []);
    }

    /** The path buffer holds the current node's path; a root that turned out to be empty may have
        lost the slash at its end. */
    ghost predicate Shows()
      reads this`buf, this`st, buf
    {
      st.rows != [] && !(|st.rows| == 1 && st.rows[0].head.info == INIT) ==>
        var e := st.rows[|st.rows| - 1].head;
        Holds(buf, e.path) || (|st.rows| == 1 && e.info == DP && Holds(buf, Trimmed(e.path)))
    }

    ghost predicate Valid()
      reads this, repr, top, buf
    {
      && Linked() && Sane(w.fs) && Permutes(w.sort) && Sound(w, st.rows) && Spelled(st.rows)
      && st.dev == dev && AllFit(st.rows, buf.Length) && Shows()
    }

    /** The next node of the walk. */
    method FtsRead() returns (p: Node?)
      requires Valid()
      requires cur != null && cur.instr == AGAIN ==> Holds(buf, cur.path)
      requires cur != null && cur.info == INIT ==> cur.instr == NOINSTR
      modifies this, buf, repr
      ensures Valid() && p == cur && (p != null ==> p in repr)
      ensures (buf == old(buf) || fresh(buf)) && fresh(repr - old(repr))
      ensures var instr := if old(cur) == null then NOINSTR else old(cur.instr);
              Read(w, old(st), instr) == Turn(if p == null then None else Some(p.Val()), st)
      ensures p != null ==> old(cur) != null && old(st.rows) != []
      ensures p != null ==>
                (Holds(buf, p.path) <==> !(Emptied(w, old(st), old(cur.instr)) && Trimmed(p.path) != p.path))
    {
      hide Linked, ListOk, Loaded, Above, Spelled, EntsFit, AllFit, Sound, Sane, Permutes, Read, PathText, Emptied;
      if cur == null {
        NoRows();
        ReadEnd(w, st);
        return null;
      }
      CurAt();
      ghost var st0 := st;
      var instr := TakeInstr();
      ReadSound(w, st0, instr);
      ReadSpelled(w, st0, instr);
      p := Obey(instr);
      if p == null {
        NoRows();
      } else {
        CurAt();
        if Emptied(w, st0, instr) {
          EmptiedTwice(w, st0, instr);
        }
        ShownPath(buf, st0, st, instr, w);
      }
    }

    /** Read under an instruction. */
    method Obey(instr: Instr) returns (p: Node?)
      requires Linked() && cur != null && Sane(w.fs) && Permutes(w.sort) && Spelled(st.rows)
      requires st.dev == dev && AllFit(st.rows, buf.Length)
      requires (instr == AGAIN || cur.info == D || cur.info == SL || cur.info == SLNONE || |rows| > 1) ==>
               Holds(buf, cur.path)
      modifies this, buf, repr
      ensures Linked() && p == cur && st.dev == dev && AllFit(st.rows, buf.Length) && old(st.rows) != []
      ensures (buf == old(buf) || fresh(buf)) && fresh(repr - old(repr))
      ensures Read(w, old(st), instr) == Turn(if p == null then None else Some(p.Val()), st)
      ensures p != null ==> Holds(buf, if Emptied(w, old(st), instr) then Trimmed(p.path) else p.path)
    {
      hide Linked, ListOk, Above, Spelled, AllFit, Sane, Permutes, Into, Onward, Stated;
      CurAt();
      if instr == AGAIN || (instr == FOLLOW && (cur.info == SL || cur.info == SLNONE)) {
        StatedPath(w, cur.Val(), instr == FOLLOW, Above(st.rows[..|st.rows| - 1]));
        FitHead(st.rows, Stated(w, cur.Val(), instr == FOLLOW, Above(st.rows[..|st.rows| - 1])), buf.Length);
        p := LookAgain(instr == FOLLOW);
      } else if cur.info == D {
        GoInto(instr);
        p := cur;
      } else {
        p := GoOnward();
      }
    }

    /** Look at the current node again. */
    method LookAgain(follow: bool) returns (p: Node)
      requires Linked() && cur != null && Holds(buf, cur.path)
      modifies this`st, cur`info, cur`errno, cur`id
      ensures Linked() && p == cur && old(st.rows) != []
      ensures cur.Val() == Stated(w, old(cur.Val()), follow, Above(old(st.rows[..|st.rows| - 1])))
      ensures st == old(st).(rows := SetHead(old(st.rows), cur.Val()))
    {
      hide Linked, ListOk, Above, Stated, CText, Kind;
      CurAt();
      HoldsText(buf, cur.path);
      var info, errno, id := Look(cur, CText(buf[..]), follow, |rows| - 1);
      Mark(info, errno, id);
      p := cur;
    }

    lemma NoRows()
      requires Linked() && cur == null
      ensures st.rows == []
    {
    }

    /** An instruction for the node returned last. */
    method FtsSet(p: Node, instr: Instr)
      requires Valid() && p == cur
      modifies p`instr
      ensures Valid() && p.instr == instr && st == old(st) && cur == old(cur)
    {
      hide Sane, Permutes, Sound, Spelled, AllFit, Shows, Linked;
      SetInstr(instr);
    }

    method SetInstr(instr: Instr)
      requires Linked() && cur != null
      modifies cur`instr
      ensures Linked() && cur.instr == instr
    {
      hide ListOk;
      ghost var last := |rows| - 1;
      ghost var ns, es := rows[last], Nodes(st.rows[last]);
      HeadAt(last);
      Apart();
      ListTail(ns, es, UpOf(last), last);
      ListFirst(ns, es, UpOf(last), last);
      cur.instr := instr;
      ListCons(ns, es, UpOf(last), last);
    }

    /** A root, looked at; "." and ".." named as such are directories like others. */
    method NewRoot(arg: string, ghost pos: int) returns (p: Node)
      requires Linked() && rows == []
      ensures fresh(p) && p.pos == pos && p.instr == NOINSTR && NodeAt(p, RootArg(w, arg), top, null, 0)
    {
      hide ListOk, Kind;
      p := new Node(arg, arg);
      p.level := 0;
      p.parent := top;
      p.pos := pos;
      ghost var e := Ent(arg, arg, 0, INIT, NOID, 0);
      assert p.Val() == e;
      assert st.rows[..0] == [];
      var info, errno, id := Look(p, p.name, w.opts.comfollow, 0);
      p.info, p.errno, p.id := if info == DOT then D else info, errno, id;
    }

    /** The list of the roots in the order given. */
    method ListRoots(argv: seq<string>) returns (root: Node?, ghost ns: seq<Node>)
      requires Linked() && rows == []
      ensures ListOk(ns, RootArgs(w, argv), top, 0) && Quiet(ns) && root == (if ns == [] then null else ns[0])
      ensures forall m | m in ns :: fresh(m)
    {
      hide Linked, ListOk, NodeAt;
      root, ns := null, [];
      ghost var es: seq<Ent> := [];
      var tmp: Node? := null;
      ListNone(top, 0);
      assert argv[0..] == argv && [] + RootArgs(w, argv) == RootArgs(w, argv);
      for i := 0 to |argv|
        invariant ListOk(ns, es, top, 0) && |ns| == |es| == i
        invariant forall j | 0 <= j < |ns| :: ns[j].pos == j && ns[j].instr == NOINSTR && fresh(ns[j])
        invariant root == (if ns == [] then null else ns[0]) && tmp == (if ns == [] then null else ns[i - 1])
        invariant RootArgs(w, argv) == es + RootArgs(w, argv[i..])
      {
        var p := NewRoot(argv[i], i);
        ghost var e := RootArg(w, argv[i]);
        assert argv[i..][1..] == argv[i + 1..];
        Cat3(es, [e], RootArgs(w, argv[i + 1..]));
        AppendOrStart(tmp, p, ns, es, e, top, 0);
        root := if root == null then p else root;
        tmp := p;
        ns, es := ns + [p], es + [e];
      }
      assert argv[|argv|..] == [] && es + [] == es;
    }

    /** The list of the roots, each put before the ones already there. */
    method StackRoots(argv: seq<string>) returns (root: Node?, n: nat, ghost ns: seq<Node>)
      requires Linked() && rows == []
      ensures ListOk(ns, Reversed(RootArgs(w, argv)), top, 0) && Quiet(ns) && n == |ns|
      ensures root == (if ns == [] then null else ns[0])
      ensures forall m | m in ns :: fresh(m)
    {
      hide Linked, ListOk, NodeAt, RootArg, RootArgs, Reversed;
      root, n, ns := null, 0, [];
      ghost var es: seq<Ent> := [];
      ListNone(top, 0);
      assert argv[0..] == argv;
      Cat3(Reversed(RootArgs(w, argv)), [], []);
      for i := 0 to |argv|
        invariant ListOk(ns, es, top, 0) && n == |ns| == |es| == i
        invariant forall j | 0 <= j < |ns| :: ns[j].pos >= -i + 1 && ns[j].instr == NOINSTR && fresh(ns[j])
        invariant root == (if ns == [] then null else ns[0])
        invariant Reversed(RootArgs(w, argv)) == Reversed(RootArgs(w, argv[i..])) + es
      {
        var p := NewRoot(argv[i], -i);
        ghost var e := RootArg(w, argv[i]);
        assert argv[i..][1..] == argv[i + 1..];
        StackStep(w, argv[i..], es);
        Prepend(p, root, ns, es, e, top, 0);
        root := p;
        n := n + 1;
        ns, es := [p] + ns, [e] + es;
      }
      StackEnd(w, argv[|argv|..], es);
    }

    /** Make the walk stand before its first root: a node in front of the roots that is not one. */
    method Start(root: Node, ghost ns: seq<Node>, ghost es: seq<Ent>)
      requires Linked() && rows == [] && ListOk(ns, es, top, 0) && ns != [] && root == ns[0]
      modifies this`cur, this`rows, this`repr, this`st
      ensures Linked() && cur != null && cur.instr == NOINSTR && cur.info == INIT
      ensures st == State([Row(INIT_ENT, es)], old(st.dev)) && fresh(repr - old(repr) - set m | m in ns)
    {
      hide ListOk;
      var p := Ahead(root, ns, es);
      cur := p;
      repr := repr + set m | m in [p] + ns;
      rows := [[p] + ns];
      st := st.(rows := [Row(INIT_ENT, es)]);
      assert Nodes(st.rows[0]) == [INIT_ENT] + es;
    }

    method Ahead(root: Node, ghost ns: seq<Node>, ghost es: seq<Ent>) returns (p: Node)
      requires ListOk(ns, es, top, 0) && ns != [] && root == ns[0]
      ensures fresh(p) && p.instr == NOINSTR && p.info == INIT && ListOk([p] + ns, [INIT_ENT] + es, top, 0)
    {
      hide ListOk;
      ListCount(ns, es, top, 0);
      ListFirst(ns, es, top, 0);
      p := new Node("", "");
      p.parent := top;
      p.link := root;
      p.pos := root.pos - 1;
      ghost var all := [p] + ns;
      assert all[1..] == ns && ([INIT_ENT] + es)[1..] == es;
      ListCons(all, [INIT_ENT] + es, top, 0);
    }

    /** The roots, sorted when there is a comparison. */
    method MakeRoots(argv: seq<string>) returns (root: Node, ghost ns: seq<Node>)
      requires Linked() && rows == [] && argv != [] && Permutes(w.sort)
      ensures ListOk(ns, Roots(w, argv), top, 0) && ns != [] && root == ns[0]
      ensures forall m | m in ns :: fresh(m)
    {
      hide Linked, ListOk, Permutes, Quiet, RootArgs, Reversed, Sorted;
      RootCount(w, argv);
      if !w.sorted {
        var first, ns0 := ListRoots(argv);
        ListCount(ns0, RootArgs(w, argv), top, 0);
        return first, ns0;
      }
      var first, n, ns0 := StackRoots(argv);
      ListCount(ns0, Reversed(RootArgs(w, argv)), top, 0);
      root, ns := Sort(first, n, ns0, Reversed(RootArgs(w, argv)), top, 0, set m | m in ns0);
    }

    /** Start a walk; a root without a name is an error. */
    static method FtsOpen(w: World, argv: seq<string>) returns (sp: Fts?, errno: int)
      requires Sane(w.fs) && Permutes(w.sort) && argv != [] && forall i | 0 <= i < |argv| :: NoNul(argv[i])
      ensures sp == null <==> "" in argv
      ensures sp == null ==> errno == ENOENT
      ensures sp != null ==> fresh(sp) && fresh(sp.repr) && fresh(sp.buf) && sp.Valid() && sp.w == w
      ensures sp != null ==>
                sp.st == Opened(w, argv) && sp.cur != null && sp.cur.info == INIT && sp.cur.instr == NOINSTR
    {
      hide Sane, Permutes, NoNul, ListOk, Sound, Spelled, AllFit, Roots, PathText;
      sp, errno := null, 0;
      for i := 0 to |argv|
        invariant "" !in argv[..i] && sp == null
      {
        if |argv[i]| == 0 {
          assert argv[i] == "";
          return null, ENOENT;
        }
      }
      assert argv[..|argv|] == argv;
      var size := MaxArgLen(argv);
      var fts := new Fts(w, if size > PATH_MAX then size else PATH_MAX);
      Unstarted(fts);
      var root, ns := fts.MakeRoots(argv);
      fts.Start(root, ns, Roots(w, argv));
      OpenedFacts(w, argv, fts.buf.Length);
      sp := fts;
    }
  }

  lemma RootCount(w: World, argv: seq<string>)
    requires Permutes(w.sort)
    ensures |RootArgs(w, argv)| == |argv| == |Reversed(RootArgs(w, argv))|
    ensures |Sorted(w, Reversed(RootArgs(w, argv)))| == |argv|
  {
    hide Permutes, Sorted;
    ArgCount(w, argv);
    ReversedCount(RootArgs(w, argv));
    SortedSome(w, Reversed(RootArgs(w, argv)));
  }

  lemma {:induction false} ArgCount(w: World, argv: seq<string>)
    ensures |RootArgs(w, argv)| == |argv|
  {
    if argv != [] {
      ArgCount(w, argv[1..]);
    }
  }

  lemma {:induction false} ReversedCount(es: seq<Ent>)
    ensures |Reversed(es)| == |es|
  {
    if es != [] {
      ReversedCount(es[1..]);
    }
  }

  /** Longer than every argument. */
  method MaxArgLen(argv: seq<string>) returns (max: nat)
    ensures max > 0 && forall i | 0 <= i < |argv| :: |argv[i]| < max
  {
    max := 0;
    for i := 0 to |argv|
      invariant forall j | 0 <= j < i :: |argv[j]| <= max
    {
      if |argv[i]| > max {
        max := |argv[i]|;
      }
    }
    max := max + 1;
  }

  lemma Unstarted(sp: Fts)
    requires sp.cur == null && sp.rows == [] && sp.repr == {} && sp.st == State([], 0) && sp.top.level == -1
    ensures sp.Linked()
  {
  }

  /** A root named by an argument that is a text. */
  predicate NamedOk(e: Ent, n: nat) {
    e.name == e.path && PathText(e.path) && |e.path| < n
  }

  predicate AllNamed(es: seq<Ent>, n: nat) {
    forall i | 0 <= i < |es| :: NamedOk(es[i], n)
  }

  lemma {:induction false} ArgsNamed(w: World, argv: seq<string>, n: nat)
    requires forall i | 0 <= i < |argv| :: argv[i] != "" && NoNul(argv[i]) && |argv[i]| < n
    ensures AllNamed(RootArgs(w, argv), n)
  {
    hide NoNul;
    if argv != [] {
      ArgsNamed(w, argv[1..], n);
    }
  }

  lemma {:induction false} ReversedNamed(es: seq<Ent>, n: nat)
    requires AllNamed(es, n)
    ensures AllNamed(Reversed(es), n)
  {
    hide NamedOk;
    if es != [] {
      ReversedNamed(es[1..], n);
    }
  }

  lemma RootsNamed(w: World, argv: seq<string>, n: nat)
    requires forall i | 0 <= i < |argv| :: argv[i] != "" && NoNul(argv[i]) && |argv[i]| < n
    ensures AllNamed(Roots(w, argv), n)
  {
    hide NoNul, NamedOk, RootArgs, Reversed;
    ArgsNamed(w, argv, n);
    ReversedNamed(RootArgs(w, argv), n);
  }

  lemma OpenedFacts(w: World, argv: seq<string>, n: nat)
    requires Sane(w.fs) && Permutes(w.sort) && n > 0
    requires forall i | 0 <= i < |argv| :: argv[i] != "" && NoNul(argv[i]) && |argv[i]| < n
    ensures Sound(w, Opened(w, argv).rows) && Spelled(Opened(w, argv).rows) && AllFit(Opened(w, argv).rows, n)
  {
    hide Sane, Permutes, NoNul, PathText, Roots, Sound, Spelled;
    OpenedSound(w, argv);
    RootsNamed(w, argv, n);
    var r := Row(INIT_ENT, Roots(w, argv));
    SpelledNone();
    SpelledStep([], r);
    assert [] + [r] == [r];
    NamedFit(Roots(w, argv), n);
  }

  lemma NamedFit(es: seq<Ent>, n: nat)
    requires AllNamed(es, n) && n > 0
    ensures EntsFit([INIT_ENT] + es, n) && RootsOk(es)
  {
  }

  lemma StackStep(w: World, argv: seq<string>, es: seq<Ent>)
    requires argv != []
    ensures Reversed(RootArgs(w, argv)) + es == Reversed(RootArgs(w, argv[1..])) + ([RootArg(w, argv[0])] + es)
  {
    hide RootArg;
    var more := RootArgs(w, argv[1..]);
    assert ([RootArg(w, argv[0])] + more)[1..] == more;
    Cat3(Reversed(more), [RootArg(w, argv[0])], es);
  }

  lemma StackEnd(w: World, argv: seq<string>, es: seq<Ent>)
    requires argv == []
    ensures Reversed(RootArgs(w, argv)) + es == es
  {
  }

  /** Link a new node before a list. */
  method Prepend(p: Node, root: Node?, ghost ns: seq<Node>, ghost es: seq<Ent>, ghost e: Ent, ghost up: Node,
                 ghost level: int)
    requires ListOk(ns, es, up, level) && NodeAt(p, e, up, null, level) && p !in ns
    requires root == (if ns == [] then null else ns[0]) && forall j | 0 <= j < |ns| :: p.pos < ns[j].pos
    modifies p`link
    ensures ListOk([p] + ns, [e] + es, up, level)
  {
    hide ListOk;
    p.link := root;
    ListCount(ns, es, up, level);
    assert ([p] + ns)[1..] == ns && ([e] + es)[1..] == es;
    ListCons([p] + ns, [e] + es, up, level);
  }

  lemma FitRest(rows: seq<Row>, n: nat)
    requires AllFit(rows, n) && rows != [] && rows[|rows| - 1].rest != []
    ensures var r := rows[|rows| - 1];
            |r.rest[0].path| < n && AllFit(rows[|rows| - 1 := Row(r.rest[0], r.rest[1..])], n)
  {
    var last := |rows| - 1;
    var r := rows[last];
    var rows' := rows[last := Row(r.rest[0], r.rest[1..])];
    assert EntsFit(Nodes(rows[last]), n);
    assert Nodes(r)[1..] == r.rest == Nodes(rows'[last]);
    assert |Nodes(r)[1].path| < n;
    forall k | 0 <= k < |rows'|
      ensures EntsFit(Nodes(rows'[k]), n)
    {
      assert EntsFit(Nodes(rows[k]), n);
    }
  }

  lemma LoadedFits(es: seq<Ent>, n: nat)
    requires es != [] && AllFit([Row(es[0], es[1..])], n)
    ensures AllFit([Row(Loaded(es[0]), es[1..])], n)
  {
    FitHead([Row(es[0], es[1..])], Loaded(es[0]), n);
    assert SetHead([Row(es[0], es[1..])], Loaded(es[0])) == [Row(Loaded(es[0]), es[1..])];
  }

  lemma FirstRoot(rows: seq<Row>, n: nat)
    requires |rows| == 1 && Spelled(rows) && rows[0].rest != []
    ensures var e := rows[0].rest[0]; e.name == e.path && PathText(e.path)
  {
    assert rows[..0] == [];
  }

  lemma BesideFacts(rows: seq<Row>, n: nat)
    requires |rows| > 1 && Spelled(rows) && rows[|rows| - 1].rest != [] && AllFit(rows, n)
    ensures var dir := rows[|rows| - 2].head.path; var r := rows[|rows| - 1];
            && PathText(dir) && BelowOk(dir, r.rest[0]) && dir <= r.head.path && |dir| < |r.head.path| < n
            && |DirText(dir)| + |r.rest[0].name| < n
  {
    hide PathText, IsName;
    var up := rows[..|rows| - 1];
    HeadText(up);
    var r := rows[|rows| - 1];
    ChildText(up[|up| - 1].head.path, r.head.name);
    FitRest(rows, n);
    assert EntsFit(Nodes(r), n);
    assert |Nodes(r)[0].path| < n;
  }

  lemma UpFacts(rows: seq<Row>, n: nat)
    requires |rows| > 1 && Spelled(rows) && AllFit(rows, n)
    ensures var dir := rows[|rows| - 2].head.path; var r := rows[|rows| - 1];
            && PathText(dir) && NoNul(dir) && dir <= r.head.path && |dir| < |r.head.path| < n
    ensures AllFit(rows[..|rows| - 1], n)
  {
    hide IsName;
    var up := rows[..|rows| - 1];
    HeadText(up);
    var r := rows[|rows| - 1];
    ChildText(up[|up| - 1].head.path, r.head.name);
    assert EntsFit(Nodes(r), n);
    assert |Nodes(r)[0].path| < n;
    forall k | 0 <= k < |up|
      ensures EntsFit(Nodes(up[k]), n)
    {
      assert EntsFit(Nodes(rows[k]), n);
    }
  }

  /** The position after the last slash. */
  method FindBase(name: string) returns (n: nat)
    ensures n == BaseStart(name)
  {
    n := |name|;
    assert name[..n] == name;
    while n > 0 && name[n - 1] != '/'
      invariant 0 <= n <= |name| && BaseStart(name[..n]) == BaseStart(name)
    {
      assert name[..n][..n - 1] == name[..n - 1];
      n := n - 1;
    }
  }

  lemma HoldsOnce(buf: array<char>, s: string, t: string)
    requires Holds(buf, s) && Holds(buf, t)
    ensures s == t
  {
    hide CText;
    HoldsText(buf, s);
    HoldsText(buf, t);
  }

  lemma StatedPath(w: World, e: Ent, follow: bool, above: seq<FileId>)
    ensures Stated(w, e, follow, above).path == e.path
  {
  }

  lemma ReadEnd(w: World, st: State)
    ensures st.rows == [] ==> Read(w, st, NOINSTR) == Turn(None, st)
  {
  }

  /** A directory with nothing in it is visited again at once. */
  lemma EmptiedTwice(w: World, st: State, instr: Instr)
    requires Sane(w.fs) && Permutes(w.sort) && st.rows != [] && Emptied(w, st, instr)
    ensures Read(w, st, instr).visit.Some? && Read(w, st, instr).visit.value.info == DP
  {
    hide Into, Onward, Stated, Above, Sane, Permutes, Children, Sorted;
    IntoCases(w, st, instr);
  }

  /** When the buffer shows the path of the node a read has come to. */
  lemma ShownPath(buf: array<char>, st0: State, st: State, instr: Instr, w: World)
    requires st0.rows != [] && st.rows != [] && Spelled(st.rows)
    requires var e := st.rows[|st.rows| - 1].head;
             && Holds(buf, if Emptied(w, st0, instr) then Trimmed(e.path) else e.path)
             && (Emptied(w, st0, instr) ==> e.info == DP)
    ensures var e := st.rows[|st.rows| - 1].head;
            && (Holds(buf, e.path) <==> !(Emptied(w, st0, instr) && Trimmed(e.path) != e.path))
            && (Holds(buf, e.path) || (|st.rows| == 1 && e.info == DP && Holds(buf, Trimmed(e.path))))
  {
    hide Emptied, Spelled, PathText;
    var e := st.rows[|st.rows| - 1].head;
    if Emptied(w, st0, instr) {
      HeadText(st.rows);
      if Trimmed(e.path) != e.path && Holds(buf, e.path) {
        HoldsOnce(buf, e.path, Trimmed(e.path));
      }
    }
  }

  /** The ways into a directory. */
  lemma IntoCases(w: World, st: State, instr: Instr)
    requires Sane(w.fs) && Permutes(w.sort) && st.rows != []
    ensures var c := st.rows[|st.rows| - 1].head;
            instr == SKIP || Crosses(w, st.dev, c) ==>
              Into(w, st, instr) == Turn(Some(c.(info := DP)), st.(rows := SetHead(st.rows, c.(info := DP))))
    ensures var c := st.rows[|st.rows| - 1].head; var l := w.fs.list(c.path);
            instr != SKIP && !Crosses(w, st.dev, c) && l.Unreadable? ==>
              var e := c.(info := DNR, errno := l.errno);
              Into(w, st, instr) == Turn(Some(e), st.(rows := SetHead(st.rows, e)))
    ensures var c := st.rows[|st.rows| - 1].head; var l := w.fs.list(c.path);
            instr != SKIP && !Crosses(w, st.dev, c) && l.Entries? && Seen(w, l.names) == [] ==>
              Into(w, st, instr) == Turn(Some(c.(info := DP)), st.(rows := SetHead(st.rows, c.(info := DP))))
    ensures var c := st.rows[|st.rows| - 1].head; var l := w.fs.list(c.path);
            instr != SKIP && !Crosses(w, st.dev, c) && l.Entries? && Seen(w, l.names) != [] ==>
              var es := Sorted(w, Children(w, c, Above(st.rows), Seen(w, l.names)));
              es != [] && AllBelow(c.path, es)
              && Into(w, st, instr) == Turn(Some(es[0]), st.(rows := st.rows + [Row(es[0], es[1..])]))
  {
    hide Sane, Permutes, Children, Sorted, Seen, Above, AllBelow;
    var rows := st.rows;
    var c := rows[|rows| - 1].head;
    var up := rows[..|rows| - 1];
    assert rows == up + [rows[|rows| - 1]];
    AboveStep(up, rows[|rows| - 1]);
    if w.fs.list(c.path).Entries? {
      var names := w.fs.list(c.path).names;
      ListedBelow(w, c, Above(up));
      ChildCount(w, c, Above(rows), names);
      SortedSome(w, Children(w, c, Above(rows), Seen(w, names)));
    }
  }

  predicate AllFit(rows: seq<Row>, n: nat) {
    forall k | 0 <= k < |rows| :: EntsFit(Nodes(rows[k]), n)
  }

  lemma FitHead(rows: seq<Row>, e: Ent, n: nat)
    requires AllFit(rows, n) && rows != [] && e.path == rows[|rows| - 1].head.path
    ensures AllFit(SetHead(rows, e), n)
  {
    forall k | 0 <= k < |rows|
      ensures EntsFit(Nodes(SetHead(rows, e)[k]), n)
    {
      assert EntsFit(Nodes(rows[k]), n);
      assert Nodes(rows[k])[0] == rows[k].head;
      if k == |rows| - 1 {
        FitSwap(Nodes(rows[k]), e, n);
        assert Nodes(SetHead(rows, e)[k]) == [e] + Nodes(rows[k])[1..];
      }
    }
  }

  lemma FitSwap(es: seq<Ent>, e: Ent, n: nat)
    requires EntsFit(es, n) && es != [] && e.path == es[0].path
    ensures EntsFit([e] + es[1..], n)
  {
  }

  lemma FitRoom(rows: seq<Row>, n: nat, m: nat)
    requires AllFit(rows, n) && n <= m
    ensures AllFit(rows, m)
  {
    hide EntsFit;
    forall k | 0 <= k < |rows|
      ensures EntsFit(Nodes(rows[k]), m)
    {
      FitLonger(Nodes(rows[k]), n, m);
    }
  }

  lemma FitDown(rows: seq<Row>, es: seq<Ent>, n: nat, m: nat)
    requires AllFit(rows, n) && n <= m && es != [] && EntsFit(es, m)
    ensures AllFit(rows + [Row(es[0], es[1..])], m)
  {
    hide EntsFit;
    FitRoom(rows, n, m);
    assert Nodes(Row(es[0], es[1..])) == es;
  }

  lemma FitFirst(es: seq<Ent>, n: nat)
    requires EntsFit(es, n) && es != []
    ensures |es[0].path| < n
  {
  }

  lemma DirPrefix(dir: string)
    requires PathText(dir)
    ensures |dir| <= |DirText(dir)| && DirText(dir)[..|dir|] == dir
  {
  }

  /** A directory was read that has nothing in it. */
  predicate Emptied(w: World, st: State, instr: Instr)
    requires st.rows != []
  {
    var c := st.rows[|st.rows| - 1].head;
    && c.info == D && instr != SKIP && instr != AGAIN && !Crosses(w, st.dev, c)
    && w.fs.list(c.path).Entries? && Seen(w, w.fs.list(c.path).names) == []
  }

  /** A path without a slash at its end. */
  function Trimmed(p: string): string {
    if p != "" && p[|p| - 1] == '/' then p[..|p| - 1] else p
  }

  lemma TrimmedText(p: string)
    requires PathText(p)
    ensures DirText(p)[..|DirText(p)| - 1] == Trimmed(p) && NoNul(Trimmed(p))
  {
    NoNulPrefix(p, |p| - 1);
  }

  lemma NamesOk(fs: Fs, path: string)
    requires Sane(fs) && fs.list(path).Entries?
    ensures AllNames(fs.list(path).names)
  {
    hide IsName;
  }

  lemma ChildCount(w: World, c: Ent, above: seq<FileId>, names: seq<string>)
    ensures |Children(w, c, above, Seen(w, names))| == |Seen(w, names)|
  {
    hide Children, Seen;
  }

  /** What sorting a list means, by the order of its keys. */
  lemma SortedBy(w: World, es: seq<Ent>)
    requires Permutes(w.sort)
    ensures !w.sorted || |es| <= 1 ==> Sorted(w, es) == es
    ensures var o := w.sort(Keys(es));
            Permutation(o, |es|) && (forall i | 0 <= i < |o| :: o[i] < |es|)
            && (w.sorted && |es| > 1 ==> Sorted(w, es) == Arranged(es, o))
  {
  }

  /** Rearrange the array of pointers and link them again. */
  method SortArray(arr: seq<Node>, o: seq<nat>, ghost es: seq<Ent>, ghost up: Node, ghost level: int,
                   ghost all: set<Node>)
    returns (head: Node, ghost ns: seq<Node>)
    requires ListOk(arr, es, up, level) && Quiet(arr) && arr != [] && Permutation(o, |arr|)
    requires forall i | 0 <= i < |o| :: o[i] < |es|
    requires forall m | m in arr :: m in all
    modifies all
    ensures ListOk(ns, Arranged(es, o), up, level) && Quiet(ns) && |ns| == |arr| && head == ns[0]
    ensures forall m | m in ns :: m in arr
  {
    hide ListOk, StandFor, Quiet, Unlike, Permutation;
    Unsorted(arr, es, up, level);
    ns := [];
    var sorted := Arrange(arr, o, es, up, level);
    Relink(sorted, Arranged(es, o), up, level, all);
    head, ns := sorted[0], sorted;
  }

  lemma ListCount(ns: seq<Node>, es: seq<Ent>, up: Node, level: int)
    requires ListOk(ns, es, up, level)
    ensures |ns| == |es|
  {
  }

  predicate EntsFit(es: seq<Ent>, n: nat) {
    forall i | 0 <= i < |es| :: |es[i].path| < n
  }

  lemma FitNone(n: nat)
    ensures EntsFit([], n)
  {
  }

  lemma FitMore(es: seq<Ent>, e: Ent, n: nat, m: nat)
    requires EntsFit(es, n) && n <= m && |e.path| < m
    ensures EntsFit(es + [e], m)
  {
  }

  lemma FitLonger(es: seq<Ent>, n: nat, m: nat)
    requires EntsFit(es, n) && n <= m
    ensures EntsFit(es, m)
  {
  }

  lemma FitSorted(w: World, es: seq<Ent>, n: nat)
    requires EntsFit(es, n)
    ensures EntsFit(Sorted(w, es), n)
  {
  }

  predicate AllNames(names: seq<string>) {
    forall i | 0 <= i < |names| :: IsName(names[i])
  }

  /** Nodes nobody has given instructions for. */
  ghost predicate Quiet(ns: seq<Node>)
    reads ns
  {
    forall j | 0 <= j < |ns| :: ns[j].instr == NOINSTR
  }

  lemma ListNone(up: Node, level: int)
    ensures ListOk([], [], up, level)
  {
  }

  lemma SeenStep(w: World, c: Ent, above: seq<FileId>, names: seq<string>, es: seq<Ent>)
    requires names != []
    ensures es + Children(w, c, above, Seen(w, names)) ==
              if !w.opts.seedot && IsDot(names[0]) then es + Children(w, c, above, Seen(w, names[1..]))
              else (es + [Child(w, c, above, names[0])]) + Children(w, c, above, Seen(w, names[1..]))
  {
    var more := Seen(w, names[1..]);
    if w.opts.seedot || !IsDot(names[0]) {
      assert ([names[0]] + more)[1..] == more;
      Cat3(es, [Child(w, c, above, names[0])], Children(w, c, above, more));
    }
  }

  lemma SeenEnd(w: World, c: Ent, above: seq<FileId>, names: seq<string>, es: seq<Ent>)
    requires names == []
    ensures es + Children(w, c, above, Seen(w, names)) == es
  {
  }

  lemma JoinText(dir: string, name: string)
    requires PathText(dir) && IsName(name)
    ensures NoNul(DirText(dir) + name) && ChildPath(dir, name) == DirText(dir) + name
  {
  }

  lemma {:induction false} AboveBelow(rows: seq<Row>, k: nat)
    requires k <= |rows|
    ensures forall id :: id in Above(rows[..k]) <==> exists j | 0 <= j < k :: rows[j].head.id == id
    decreases k
  {
    if k > 0 {
      AboveBelow(rows, k - 1);
      assert rows[..k][..k - 1] == rows[..k - 1];
      AboveStep(rows[..k - 1], rows[k - 1]);
      assert rows[..k] == rows[..k - 1] + [rows[k - 1]];
    }
  }
}
