// The pull-style walk: what one read does to the rows of nodes between the root and the current
// node, and what is left to visit.
module FtsWalk {
  import opened Wrappers
  import opened FtsTree

  datatype Instr = NOINSTR | AGAIN | FOLLOW | SKIP

  /** A node met on the way down, and the nodes still to visit beside it. */
  datatype Row = Row(head: Ent, rest: seq<Ent>)

  /** dev is the device of the current root; the last row holds the current node. */
  datatype State = State(rows: seq<Row>, dev: int)

  datatype Turn = Turn(visit: Option<Ent>, st: State)

  /** The identities of the directories above a row's nodes. */
  function Above(rows: seq<Row>): (ids: seq<FileId>)
    ensures |ids| == |rows|
  {
    if rows == [] then [] else Above(rows[..|rows| - 1]) + [rows[|rows| - 1].head.id]
  }

  /** The name after the last slash, unless the whole name is "/". */
  function BaseName(name: string): string {
    var n := BaseStart(name);
    if n == 0 || (n == 1 && |name| == 1) then name else name[n..]
  }

  function BaseStart(name: string): (n: nat)
    ensures n <= |name|
  {
    if name == "" then 0 else if name[|name| - 1] == '/' then |name| else BaseStart(name[..|name| - 1])
  }

  /** A root as it is when it is visited. */
  function Loaded(e: Ent): Ent {
    e.(name := BaseName(e.name))
  }

  function RootArg(w: World, arg: string): Ent {
    var e := Stated(w, Ent(arg, arg, 0, INIT, NOID, 0), w.opts.comfollow, []);
    if e.info == DOT then e.(info := D) else e
  }

  function RootArgs(w: World, argv: seq<string>): seq<Ent> {
    if argv == [] then [] else [RootArg(w, argv[0])] + RootArgs(w, argv[1..])
  }

  function Reversed(es: seq<Ent>): seq<Ent> {
    if es == [] then [] else Reversed(es[1..]) + [es[0]]
  }

  /** The roots in the order they are visited; with a comparison they are collected backwards. */
  function Roots(w: World, argv: seq<string>): seq<Ent> {
    var es := RootArgs(w, argv);
    if w.sorted then Sorted(w, Reversed(es)) else es
  }

  const INIT_ENT := Ent("", "", 0, INIT, NOID, 0)

  function Opened(w: World, argv: seq<string>): State {
    State([Row(INIT_ENT, Roots(w, argv))], 0)
  }

  function SetHead(rows: seq<Row>, e: Ent): seq<Row>
    requires rows != []
  {
    rows[|rows| - 1 := rows[|rows| - 1].(head := e)]
  }

  /** Past the current node: the next one beside it, or its directory again. */
  function Onward(w: World, st: State): Turn
    requires st.rows != []
  {
    var rows := st.rows;
    var r := rows[|rows| - 1];
    var up := rows[..|rows| - 1];
    if r.rest != [] && up == [] then
      var e := Loaded(r.rest[0]);
      Turn(Some(e), State([Row(e, r.rest[1..])], e.id.dev))
    else if r.rest != [] then
      Turn(Some(r.rest[0]), st.(rows := up + [Row(r.rest[0], r.rest[1..])]))
    else if up == [] then
      Turn(None, st.(rows := []))
    else
      var e := Done(up[|up| - 1].head);
      Turn(Some(e), st.(rows := SetHead(up, e)))
  }

  /** Into the current directory, unless it is skipped, unreadable or empty. */
  function Into(w: World, st: State, instr: Instr): Turn
    requires st.rows != []
  {
    var rows := st.rows;
    var c := rows[|rows| - 1].head;
    var up := rows[..|rows| - 1];
    if instr == SKIP || Crosses(w, st.dev, c) then
      Turn(Some(c.(info := DP)), st.(rows := SetHead(rows, c.(info := DP))))
    else
      match w.fs.list(c.path)
      case Unreadable(errno) =>
        var e := c.(info := DNR, errno := errno);
        Turn(Some(e), st.(rows := SetHead(rows, e)))
      case Entries(names) =>
        var es := Listed(w, c, Above(up), names);
        if Seen(w, names) == [] || es == [] then
          Turn(Some(c.(info := DP)), st.(rows := SetHead(rows, c.(info := DP))))
        else
          Turn(Some(es[0]), st.(rows := rows + [Row(es[0], es[1..])]))
  }

  /** One fts_read under an instruction for the current node. */
  function Read(w: World, st: State, instr: Instr): Turn {
    if st.rows == [] then
      Turn(None, st)
    else
      var c := st.rows[|st.rows| - 1].head;
      var above := Above(st.rows[..|st.rows| - 1]);
      if instr == AGAIN || (instr == FOLLOW && (c.info == SL || c.info == SLNONE)) then
        var e := Stated(w, c, instr == FOLLOW, above);
        Turn(Some(e), st.(rows := SetHead(st.rows, e)))
      else if c.info == D then
        Into(w, st, instr)
      else
        Onward(w, st)
  }

  // ---- what every read keeps

  /** Directories on the way down have been entered: each is known and unlike those above it. */
  ghost predicate Sound(w: World, rows: seq<Row>)
    decreases |rows|
  {
    rows == [] ||
    var up := rows[..|rows| - 1];
    var r := rows[|rows| - 1];
    && Sound(w, up) && Entered(w, up)
    && Placed(w, r.head, Above(up)) && AllPlaced(w, r.rest, Above(up))
  }

  /** The last directory of these rows can be entered. */
  ghost predicate Entered(w: World, up: seq<Row>) {
    up != [] ==>
      var e := up[|up| - 1].head;
      e.id in w.fs.ids && e.id !in Above(up[..|up| - 1])
  }

  lemma SortedSome(w: World, es: seq<Ent>)
    requires Permutes(w.sort)
    ensures |Sorted(w, es)| == |es|
  {
    assert Permutation(w.sort(Keys(es)), |es|);
  }

  lemma SoundStep(w: World, up: seq<Row>, r: Row)
    ensures Sound(w, up + [r]) == (&& Sound(w, up) && Entered(w, up)
                                   && Placed(w, r.head, Above(up)) && AllPlaced(w, r.rest, Above(up)))
  {
    assert (up + [r])[..|up|] == up;
  }

  /** Another node in place of the current one, placed like it. */
  lemma SetHeadSound(w: World, rows: seq<Row>, e: Ent)
    requires rows != [] && Sound(w, rows) && Placed(w, e, Above(rows[..|rows| - 1]))
    ensures Sound(w, SetHead(rows, e))
  {
    hide Sound, Entered, Placed, AllPlaced, Above;
    var up := rows[..|rows| - 1];
    var r := rows[|rows| - 1];
    assert rows == up + [r];
    assert SetHead(rows, e) == up + [r.(head := e)];
    SoundStep(w, up, r);
    SoundStep(w, up, r.(head := e));
  }

  lemma PlacedRest(w: World, es: seq<Ent>, above: seq<FileId>)
    requires es != [] && AllPlaced(w, es, above)
    ensures Placed(w, es[0], above) && AllPlaced(w, es[1..], above)
  {
    hide Placed;
  }

  lemma NotDPlaced(w: World, e: Ent, above: seq<FileId>)
    requires e.info != D
    ensures Placed(w, e, above)
  {
  }

  lemma OnwardSound(w: World, st: State)
    requires Sound(w, st.rows) && st.rows != []
    ensures Sound(w, Onward(w, st).st.rows)
  {
    hide Sound, Entered, Placed, AllPlaced, Above, Loaded;
    var rows := st.rows;
    var r := rows[|rows| - 1];
    var up := rows[..|rows| - 1];
    assert rows == up + [r];
    SoundStep(w, up, r);
    if r.rest != [] {
      PlacedRest(w, r.rest, Above(up));
      var e := r.rest[0];
      if up == [] {
        LoadedPlaced(w, e, Above(up));
        SoundStep(w, up, Row(Loaded(e), r.rest[1..]));
        assert [] + [Row(Loaded(e), r.rest[1..])] == [Row(Loaded(e), r.rest[1..])];
      } else {
        SoundStep(w, up, Row(e, r.rest[1..]));
      }
    } else if up == [] {
      SoundNone(w);
    } else {
      var e := Done(up[|up| - 1].head);
      NotDPlaced(w, e, Above(up[..|up| - 1]));
      SetHeadSound(w, up, e);
    }
  }

  lemma SoundNone(w: World)
    ensures Sound(w, [])
  {
  }

  lemma LoadedPlaced(w: World, e: Ent, above: seq<FileId>)
    ensures Placed(w, Loaded(e), above) == Placed(w, e, above)
  {
  }

  lemma IntoSound(w: World, st: State, instr: Instr)
    requires Sane(w.fs) && Permutes(w.sort) && Sound(w, st.rows) && st.rows != []
    requires st.rows[|st.rows| - 1].head.info == D
    ensures Sound(w, Into(w, st, instr).st.rows)
  {
    hide Sound, AllPlaced, Above, Crosses, Seen, Listed, Permutes, Sane;
    var rows := st.rows;
    var r := rows[|rows| - 1];
    var c := r.head;
    var up := rows[..|rows| - 1];
    assert rows == up + [r];
    SoundStep(w, up, r);
    SetHeadSound(w, rows, c.(info := DP));
    match w.fs.list(c.path)
    case Unreadable(errno) => SetHeadSound(w, rows, c.(info := DNR, errno := errno));
    case Entries(names) =>
      var es := Listed(w, c, Above(up), names);
      if es != [] {
        ListedPlaced(w, c, Above(up), names);
        PlacedRest(w, es, Above(up) + [c.id]);
        AboveStep(up, r);
        SoundStep(w, rows, Row(es[0], es[1..]));
      }
  }

  lemma AboveStep(up: seq<Row>, r: Row)
    ensures Above(up + [r]) == Above(up) + [r.head.id]
  {
    assert (up + [r])[..|up|] == up;
  }

  lemma ReadSound(w: World, st: State, instr: Instr)
    requires Sane(w.fs) && Permutes(w.sort) && Sound(w, st.rows)
    ensures Sound(w, Read(w, st, instr).st.rows)
  {
    hide Sound, Above, Into, Onward, Stated, Sane, Permutes, Placed;
    if st.rows != [] {
      var c := st.rows[|st.rows| - 1].head;
      var above := Above(st.rows[..|st.rows| - 1]);
      StatedPlaced(w, c, instr == FOLLOW, above);
      SetHeadSound(w, st.rows, Stated(w, c, instr == FOLLOW, above));
      if c.info == D {
        IntoSound(w, st, instr);
      }
      OnwardSound(w, st);
    }
  }

  // ---- what is left to visit

  /** The roots still to come, each with what is inside it. */
  function TourRoots(w: World, es: seq<Ent>): seq<Ent>
    requires Sane(w.fs) && Permutes(w.sort) && AllPlaced(w, es, [])
  {
    if es == [] then
      []
    else
      PlacedRest(w, es, []);
      var e := Loaded(es[0]);
      LoadedPlaced(w, es[0], []);
      [e] + Inside(w, e.id.dev, e, []) + TourRoots(w, es[1..])
  }

  /** What comes after the current node and all that is inside it. */
  function Later(w: World, rows: seq<Row>, dev: int): seq<Ent>
    requires Sane(w.fs) && Permutes(w.sort) && Sound(w, rows) && rows != []
    decreases |rows|
  {
    var up := rows[..|rows| - 1];
    var rest := rows[|rows| - 1].rest;
    if up == [] then
      assert Above(up) == [];
      TourRoots(w, rest)
    else
      TourAll(w, dev, rest, Above(up)) + [Done(up[|up| - 1].head)] + Later(w, up, dev)
  }

  /** All visits still to come if no more instructions are given. */
  function Todo(w: World, st: State): seq<Ent>
    requires Sane(w.fs) && Permutes(w.sort) && Sound(w, st.rows)
  {
    if st.rows == [] then
      []
    else
      var up := st.rows[..|st.rows| - 1];
      Inside(w, st.dev, st.rows[|st.rows| - 1].head, Above(up)) + Later(w, st.rows, st.dev)
  }

  /** What a read's outcome leaves: its visit, then what is to do after it. */
  function Coming(w: World, t: Turn): seq<Ent>
    requires Sane(w.fs) && Permutes(w.sort) && Sound(w, t.st.rows)
  {
    (if t.visit.Some? then [t.visit.value] else []) + Todo(w, t.st)
  }

  lemma LaterStep(w: World, up: seq<Row>, r: Row, dev: int)
    requires Sane(w.fs) && Permutes(w.sort) && Sound(w, up + [r])
    ensures AllPlaced(w, r.rest, Above(up)) && Sound(w, up) && (up == [] ==> Above(up) == [])
    ensures Later(w, up + [r], dev) ==
              if up == [] then TourRoots(w, r.rest)
              else TourAll(w, dev, r.rest, Above(up)) + [Done(up[|up| - 1].head)] + Later(w, up, dev)
  {
    hide AllPlaced, Placed, Entered, TourAll, Inside, TourRoots;
    SoundStep(w, up, r);
    assert (up + [r])[..|up|] == up;
  }

  lemma TodoStep(w: World, up: seq<Row>, r: Row, dev: int)
    requires Sane(w.fs) && Permutes(w.sort) && Sound(w, up + [r])
    ensures Placed(w, r.head, Above(up))
    ensures Todo(w, State(up + [r], dev)) == Inside(w, dev, r.head, Above(up)) + Later(w, up + [r], dev)
  {
    hide AllPlaced, Placed, Entered, TourAll, Inside, TourRoots, Later, Sound;
    SoundStep(w, up, r);
    assert (up + [r])[..|up|] == up;
  }

  /** The head of a row does not matter for what comes later. */
  lemma LaterHead(w: World, up: seq<Row>, r: Row, e: Ent, dev: int)
    requires Sane(w.fs) && Permutes(w.sort) && Sound(w, up + [r]) && Sound(w, up + [r.(head := e)])
    ensures Later(w, up + [r.(head := e)], dev) == Later(w, up + [r], dev)
  {
    hide Sound, AllPlaced, Placed, TourAll, TourRoots, Later, Above;
    LaterStep(w, up, r, dev);
    LaterStep(w, up, r.(head := e), dev);
  }

  lemma TourStep(w: World, dev: int, es: seq<Ent>, above: seq<FileId>)
    requires Sane(w.fs) && Permutes(w.sort) && AllPlaced(w, es, above) && es != []
    ensures Placed(w, es[0], above) && AllPlaced(w, es[1..], above)
    ensures TourAll(w, dev, es, above) == [es[0]] + Inside(w, dev, es[0], above) + TourAll(w, dev, es[1..], above)
  {
    hide Inside;
    PlacedRest(w, es, above);
  }

  lemma RootStep(w: World, es: seq<Ent>)
    requires Sane(w.fs) && Permutes(w.sort) && AllPlaced(w, es, []) && es != []
    ensures Placed(w, Loaded(es[0]), []) && AllPlaced(w, es[1..], [])
    ensures var e := Loaded(es[0]); TourRoots(w, es) == [e] + Inside(w, e.id.dev, e, []) + TourRoots(w, es[1..])
  {
    hide Inside, Loaded;
    PlacedRest(w, es, []);
    LoadedPlaced(w, es[0], []);
  }

  lemma Cat3(a: seq<Ent>, b: seq<Ent>, c: seq<Ent>)
    ensures a + b + c == a + (b + c)
    ensures [] + a == a && a + [] == a
  {
  }

  /** Moving on from a node takes exactly what comes later. */
  lemma OnwardTodo(w: World, st: State)
    requires Sane(w.fs) && Permutes(w.sort) && Sound(w, st.rows) && st.rows != []
    requires Sound(w, Onward(w, st).st.rows)
    ensures Coming(w, Onward(w, st)) == Later(w, st.rows, st.dev)
    ensures Onward(w, st).visit.None? ==> Onward(w, st).st.rows == []
  {
    hide Sound, AllPlaced, Placed, TourAll, TourRoots, Later, Above, Inside, Loaded, Done, Todo;
    var rows := st.rows;
    var r := rows[|rows| - 1];
    var up := rows[..|rows| - 1];
    assert rows == up + [r];
    LaterStep(w, up, r, st.dev);
    if r.rest != [] {
      if up == [] {
        OnwardRoot(w, st, r);
      } else {
        OnwardBeside(w, st, up, r);
      }
    } else if up == [] {
      EmptyTours(w);
    } else {
      OnwardUp(w, st, up, r);
    }
  }

  lemma EmptyTours(w: World)
    requires Sane(w.fs) && Permutes(w.sort)
    ensures Sound(w, []) && TourRoots(w, []) == [] && forall dev :: Todo(w, State([], dev)) == []
    ensures forall above, dev :: TourAll(w, dev, [], above) == []
  {
  }

  lemma OnwardRoot(w: World, st: State, r: Row)
    requires Sane(w.fs) && Permutes(w.sort) && Sound(w, [] + [r]) && r.rest != [] && st.rows == [] + [r]
    requires Sound(w, [Row(Loaded(r.rest[0]), r.rest[1..])])
    ensures var e := Loaded(r.rest[0]);
            [e] + Todo(w, State([Row(e, r.rest[1..])], e.id.dev)) == Later(w, [] + [r], st.dev)
  {
    hide Sound, AllPlaced, Placed, TourAll, TourRoots, Later, Above, Inside, Loaded, Done, Todo;
    var e := Loaded(r.rest[0]);
    var n := Row(e, r.rest[1..]);
    assert [] + [n] == [n];
    LaterStep(w, [], r, st.dev);
    LaterStep(w, [], n, e.id.dev);
    TodoStep(w, [], n, e.id.dev);
    RootStep(w, r.rest);
    Cat3([e], Inside(w, e.id.dev, e, []), TourRoots(w, r.rest[1..]));
  }

  lemma OnwardBeside(w: World, st: State, up: seq<Row>, r: Row)
    requires Sane(w.fs) && Permutes(w.sort) && Sound(w, up + [r]) && up != [] && r.rest != []
    requires Sound(w, up + [Row(r.rest[0], r.rest[1..])])
    ensures [r.rest[0]] + Todo(w, State(up + [Row(r.rest[0], r.rest[1..])], st.dev)) == Later(w, up + [r], st.dev)
  {
    hide Sound, AllPlaced, Placed, TourAll, TourRoots, Later, Above, Inside, Loaded, Done, Todo;
    var e := r.rest[0];
    var n := Row(e, r.rest[1..]);
    LaterStep(w, up, r, st.dev);
    LaterStep(w, up, n, st.dev);
    TodoStep(w, up, n, st.dev);
    TourStep(w, st.dev, r.rest, Above(up));
    Cat5([e], Inside(w, st.dev, e, Above(up)), TourAll(w, st.dev, r.rest[1..], Above(up)),
         [Done(up[|up| - 1].head)], Later(w, up, st.dev));
  }

  lemma Cat5(a: seq<Ent>, b: seq<Ent>, c: seq<Ent>, d: seq<Ent>, e: seq<Ent>)
    ensures (a + b + c) + d + e == a + (b + (c + d + e))
  {
  }

  lemma OnwardUp(w: World, st: State, up: seq<Row>, r: Row)
    requires Sane(w.fs) && Permutes(w.sort) && Sound(w, up + [r]) && up != [] && r.rest == []
    requires Sound(w, SetHead(up, Done(up[|up| - 1].head)))
    ensures var e := Done(up[|up| - 1].head);
            [e] + Todo(w, State(SetHead(up, e), st.dev)) == Later(w, up + [r], st.dev)
  {
    hide Sound, AllPlaced, Placed, TourAll, TourRoots, Later, Above, Inside, Loaded, Done, Todo;
    var e := Done(up[|up| - 1].head);
    LaterStep(w, up, r, st.dev);
    EmptyTours(w);
    HeadTodo(w, up, e, st.dev);
    InsideDone(w, st.dev, up[|up| - 1].head, Above(up[..|up| - 1]));
    UpCat(e, Later(w, up, st.dev));
  }

  lemma UpCat(e: Ent, later: seq<Ent>)
    ensures [] + [e] + later == [e] + ([] + later)
  {
  }

  lemma InsideDone(w: World, dev: int, e: Ent, above: seq<FileId>)
    requires Sane(w.fs) && Permutes(w.sort)
    ensures Placed(w, Done(e), above) && Inside(w, dev, Done(e), above) == []
  {
  }

  lemma InsideNone(w: World, dev: int, e: Ent, above: seq<FileId>)
    requires Sane(w.fs) && Permutes(w.sort) && e.info != D
    ensures Placed(w, e, above) && Inside(w, dev, e, above) == []
  {
  }

  /** Taking the current node again in another state: only what is inside it changes. */
  lemma HeadTodo(w: World, rows: seq<Row>, e: Ent, dev: int)
    requires Sane(w.fs) && Permutes(w.sort) && Sound(w, rows) && rows != [] && Sound(w, SetHead(rows, e))
    ensures Placed(w, e, Above(rows[..|rows| - 1]))
    ensures Todo(w, State(SetHead(rows, e), dev)) == Inside(w, dev, e, Above(rows[..|rows| - 1])) + Later(w, rows, dev)
  {
    hide Sound, AllPlaced, Placed, TourAll, TourRoots, Later, Above, Inside, Todo;
    var u := rows[..|rows| - 1];
    var r := rows[|rows| - 1];
    assert rows == u + [r] && SetHead(rows, e) == u + [r.(head := e)];
    TodoStep(w, u, r.(head := e), dev);
    LaterHead(w, u, r, e, dev);
  }

  /** What a directory's second visit is, or the list of what is in it. */
  lemma InsideCases(w: World, dev: int, e: Ent, above: seq<FileId>)
    requires Sane(w.fs) && Permutes(w.sort) && Placed(w, e, above) && e.info == D
    ensures Crosses(w, dev, e) ==> Inside(w, dev, e, above) == [e.(info := DP)]
    ensures var l := w.fs.list(e.path);
            !Crosses(w, dev, e) && l.Unreadable? ==> Inside(w, dev, e, above) == [e.(info := DNR, errno := l.errno)]
    ensures var l := w.fs.list(e.path);
            l.Entries? ==> AllPlaced(w, Listed(w, e, above, l.names), above + [e.id])
                           && (Listed(w, e, above, l.names) == [] <==> Seen(w, l.names) == [])
    ensures var l := w.fs.list(e.path);
            !Crosses(w, dev, e) && l.Entries? && Seen(w, l.names) == [] ==> Inside(w, dev, e, above) == [e.(info := DP)]
    ensures var l := w.fs.list(e.path);
            !Crosses(w, dev, e) && l.Entries? && Seen(w, l.names) != [] ==>
              Inside(w, dev, e, above) == TourAll(w, dev, Listed(w, e, above, l.names), above + [e.id]) + [Done(e)]
  {
    hide Sane, Permutes, AllPlaced, TourAll, Crosses, Seen;
    if w.fs.list(e.path).Entries? {
      var names := w.fs.list(e.path).names;
      ListedPlaced(w, e, above, names);
      SortedSome(w, Children(w, e, above + [e.id], Seen(w, names)));
    }
  }

  /** Going into a directory takes exactly what is inside it, then what comes later; skipping it
      leaves out the visits of what it holds. */
  lemma IntoTodo(w: World, st: State, instr: Instr)
    requires Sane(w.fs) && Permutes(w.sort) && Sound(w, st.rows) && st.rows != []
    requires st.rows[|st.rows| - 1].head.info == D && Sound(w, Into(w, st, instr).st.rows)
    ensures Placed(w, st.rows[|st.rows| - 1].head, Above(st.rows[..|st.rows| - 1]))
    ensures var c := st.rows[|st.rows| - 1].head;
            Coming(w, Into(w, st, instr)) ==
              (if instr == SKIP then [c.(info := DP)] else Inside(w, st.dev, c, Above(st.rows[..|st.rows| - 1])))
              + Later(w, st.rows, st.dev)
    ensures Into(w, st, instr).visit.Some?
  {
    hide Sane, Permutes, Sound, AllPlaced, Placed, TourAll, TourRoots, Later;
    hide Above, Inside, Todo, Crosses, Seen, Listed;
    var rows := st.rows;
    var c := rows[|rows| - 1].head;
    var up := rows[..|rows| - 1];
    assert rows == up + [rows[|rows| - 1]];
    TodoStep(w, up, rows[|rows| - 1], st.dev);
    InsideCases(w, st.dev, c, Above(up));
    var dp := c.(info := DP);
    var l := w.fs.list(c.path);
    if instr == SKIP || Crosses(w, st.dev, c) || (l.Entries? && Seen(w, l.names) == []) {
      HeadOnly(w, st, dp);
    } else if l.Unreadable? {
      HeadOnly(w, st, c.(info := DNR, errno := l.errno));
    } else {
      IntoList(w, st, c, Listed(w, c, Above(up), l.names));
    }
  }

  lemma HeadOnly(w: World, st: State, e: Ent)
    requires Sane(w.fs) && Permutes(w.sort) && Sound(w, st.rows) && st.rows != [] && Sound(w, SetHead(st.rows, e))
    requires e.info != D
    ensures [e] + Todo(w, State(SetHead(st.rows, e), st.dev)) == [e] + Later(w, st.rows, st.dev)
  {
    hide Sane, Permutes, Sound, AllPlaced, TourAll, TourRoots, Later, Above, Inside, Todo;
    HeadTodo(w, st.rows, e, st.dev);
    InsideNone(w, st.dev, e, Above(st.rows[..|st.rows| - 1]));
    Cat3(Later(w, st.rows, st.dev), [], []);
  }

  lemma IntoList(w: World, st: State, c: Ent, es: seq<Ent>)
    requires Sane(w.fs) && Permutes(w.sort) && Sound(w, st.rows) && st.rows != [] && es != []
    requires c == st.rows[|st.rows| - 1].head && Sound(w, st.rows + [Row(es[0], es[1..])])
    requires AllPlaced(w, es, Above(st.rows[..|st.rows| - 1]) + [c.id])
    ensures [es[0]] + Todo(w, State(st.rows + [Row(es[0], es[1..])], st.dev))
         == TourAll(w, st.dev, es, Above(st.rows[..|st.rows| - 1]) + [c.id]) + [Done(c)] + Later(w, st.rows, st.dev)
  {
    hide Sane, Permutes, Sound, AllPlaced, Placed, TourAll, TourRoots, Later, Above, Inside, Todo;
    var rows := st.rows;
    var up := rows[..|rows| - 1];
    var n := Row(es[0], es[1..]);
    assert rows == up + [rows[|rows| - 1]];
    AboveStep(up, rows[|rows| - 1]);
    LaterStep(w, rows, n, st.dev);
    TodoStep(w, rows, n, st.dev);
    TourStep(w, st.dev, es, Above(rows));
    Cat5([es[0]], Inside(w, st.dev, es[0], Above(rows)), TourAll(w, st.dev, es[1..], Above(rows)), [Done(c)],
         Later(w, rows, st.dev));
  }

  /** Without an instruction a read returns the first of the visits to come and leaves the others;
      it returns none exactly when there are none. */
  lemma ReadTodo(w: World, st: State)
    requires Sane(w.fs) && Permutes(w.sort) && Sound(w, st.rows)
    ensures var t := Read(w, st, NOINSTR);
            && Sound(w, t.st.rows)
            && (t.visit.None? ==> Todo(w, st) == [] && t.st.rows == [])
            && (t.visit.Some? ==> Todo(w, st) == [t.visit.value] + Todo(w, t.st))
  {
    hide Sane, Permutes, Sound, AllPlaced, Placed, Later, Above, Inside, Todo, Into, Onward, Stated;
    ReadSound(w, st, NOINSTR);
    EmptyTours(w);
    if st.rows != [] {
      var up := st.rows[..|st.rows| - 1];
      var r := st.rows[|st.rows| - 1];
      assert st.rows == up + [r];
      TodoStep(w, up, r, st.dev);
      if r.head.info == D {
        IntoTodo(w, st, NOINSTR);
      } else {
        InsideNone(w, st.dev, r.head, Above(up));
        OnwardTodo(w, st);
        Cat3(Later(w, st.rows, st.dev), [], []);
      }
    }
  }

  lemma ReadOther(w: World, st: State, instr: Instr)
    requires st.rows != []
    ensures var c := st.rows[|st.rows| - 1].head;
            !(c.info == D && instr == SKIP) && instr != AGAIN
            && !(instr == FOLLOW && (c.info == SL || c.info == SLNONE)) ==>
              Read(w, st, instr) == Read(w, st, NOINSTR)
  {
    hide Stated, Onward, Listed, Seen;
  }

  /** An instruction changes only what is done with the current node: skipping it goes straight to
      its second visit, looking at it again visits it again, with what is now inside it. */
  lemma InstrTodo(w: World, st: State, instr: Instr)
    requires Sane(w.fs) && Permutes(w.sort) && Sound(w, st.rows) && st.rows != []
    requires Sound(w, Read(w, st, instr).st.rows)
    ensures var c := st.rows[|st.rows| - 1].head; var above := Above(st.rows[..|st.rows| - 1]);
            var e := Stated(w, c, instr == FOLLOW, above);
            && Placed(w, e, above)
            && (c.info == D && instr == SKIP ==>
                  Coming(w, Read(w, st, instr)) == [c.(info := DP)] + Later(w, st.rows, st.dev))
            && (instr == AGAIN || (instr == FOLLOW && (c.info == SL || c.info == SLNONE)) ==>
                  Coming(w, Read(w, st, instr)) == [e] + (Inside(w, st.dev, e, above) + Later(w, st.rows, st.dev)))
            && (!(c.info == D && instr == SKIP) && instr != AGAIN
                && !(instr == FOLLOW && (c.info == SL || c.info == SLNONE)) ==>
                  Read(w, st, instr) == Read(w, st, NOINSTR))
  {
    ReadOther(w, st, instr);
    hide Sane, Permutes, Sound, AllPlaced, Placed, Later, Above, Inside, Todo, Into, Onward, Stated;
    var rows := st.rows;
    var c := rows[|rows| - 1].head;
    var above := Above(rows[..|rows| - 1]);
    var e := Stated(w, c, instr == FOLLOW, above);
    StatedPlaced(w, c, instr == FOLLOW, above);
    if instr == AGAIN || (instr == FOLLOW && (c.info == SL || c.info == SLNONE)) {
      HeadTodo(w, rows, e, st.dev);
    } else if c.info == D && instr == SKIP {
      IntoTodo(w, st, instr);
    }
  }

  // ---- whole walks

  /** The visits of repeated reads without instructions, up to the first that returns none. */
  function AllReads(w: World, st: State): seq<Ent>
    requires Sane(w.fs) && Permutes(w.sort) && Sound(w, st.rows)
    decreases |Todo(w, st)|
  {
    ReadTodo(w, st);
    var t := Read(w, st, NOINSTR);
    if t.visit.None? then [] else [t.visit.value] + AllReads(w, t.st)
  }

  lemma {:induction false} ReadsAreTodo(w: World, st: State)
    requires Sane(w.fs) && Permutes(w.sort) && Sound(w, st.rows)
    ensures AllReads(w, st) == Todo(w, st)
    decreases |Todo(w, st)|
  {
    hide Sane, Permutes, Sound, Todo, Read;
    ReadTodo(w, st);
    var t := Read(w, st, NOINSTR);
    if t.visit.Some? {
      ReadsAreTodo(w, t.st);
    }
  }

  lemma RootArgPlaced(w: World, arg: string)
    requires Sane(w.fs)
    ensures Placed(w, RootArg(w, arg), [])
  {
  }

  lemma {:induction false} RootArgsPlaced(w: World, argv: seq<string>)
    requires Sane(w.fs)
    ensures AllPlaced(w, RootArgs(w, argv), []) && |RootArgs(w, argv)| == |argv|
  {
    hide Sane, Placed, RootArg;
    if argv != [] {
      RootArgPlaced(w, argv[0]);
      RootArgsPlaced(w, argv[1..]);
    }
  }

  lemma {:induction false} ReversedPlaced(w: World, es: seq<Ent>)
    requires AllPlaced(w, es, [])
    ensures AllPlaced(w, Reversed(es), []) && |Reversed(es)| == |es|
  {
    hide Placed;
    if es != [] {
      ReversedPlaced(w, es[1..]);
    }
  }

  lemma RootsPlaced(w: World, argv: seq<string>)
    requires Sane(w.fs) && Permutes(w.sort)
    ensures AllPlaced(w, Roots(w, argv), [])
  {
    hide Sane, AllPlaced, Permutes;
    RootArgsPlaced(w, argv);
    ReversedPlaced(w, RootArgs(w, argv));
    PermutedPlaced(w, Reversed(RootArgs(w, argv)), []);
  }

  lemma OpenedSound(w: World, argv: seq<string>)
    requires Sane(w.fs) && Permutes(w.sort)
    ensures Sound(w, Opened(w, argv).rows)
  {
    hide Sane, AllPlaced, Permutes, Sound, Roots;
    RootsPlaced(w, argv);
    var r := Row(INIT_ENT, Roots(w, argv));
    SoundNone(w);
    NotDPlaced(w, INIT_ENT, []);
    SoundStep(w, [], r);
    assert [] + [r] == [r];
  }

  /** Reading a walk to its end visits exactly the depth-first tour of its roots. */
  lemma WalkIsTour(w: World, argv: seq<string>)
    requires Sane(w.fs) && Permutes(w.sort)
    ensures Sound(w, Opened(w, argv).rows) && AllPlaced(w, Roots(w, argv), [])
    ensures AllReads(w, Opened(w, argv)) == TourRoots(w, Roots(w, argv))
  {
    hide Sane, AllPlaced, Permutes, Sound, Roots, TourRoots, Inside, AllReads, Todo;
    OpenedSound(w, argv);
    RootsPlaced(w, argv);
    var r := Row(INIT_ENT, Roots(w, argv));
    assert [] + [r] == [r];
    ReadsAreTodo(w, Opened(w, argv));
    TodoStep(w, [], r, 0);
    LaterStep(w, [], r, 0);
    InsideNone(w, 0, INIT_ENT, []);
    Cat3(TourRoots(w, Roots(w, argv)), [], []);
  }

  // ---- cycles and depth

  /** All different, and all known. */
  ghost predicate Distinct(ids: seq<FileId>, all: set<FileId>) {
    && (forall i | 0 <= i < |ids| :: ids[i] in all)
    && (forall i, j | 0 <= i < j < |ids| :: ids[i] != ids[j])
  }

  /** The directories entered on the way down are all different. */
  lemma {:induction false} EnteredDistinct(w: World, rows: seq<Row>)
    requires Sound(w, rows) && Entered(w, rows)
    ensures Distinct(Above(rows), w.fs.ids)
    decreases |rows|
  {
    hide Placed, AllPlaced, Distinct, Above;
    if rows == [] {
      DistinctMore([], NOID, w.fs.ids);
    } else {
      var up := rows[..|rows| - 1];
      var r := rows[|rows| - 1];
      assert rows == up + [r];
      EnteredDistinct(w, up);
      AboveStep(up, r);
      DistinctMore(Above(up), r.head.id, w.fs.ids);
    }
  }

  lemma DistinctMore(ids: seq<FileId>, id: FileId, all: set<FileId>)
    ensures Above([]) == [] && Distinct([], all)
    ensures Distinct(ids, all) && id in all && id !in ids ==> Distinct(ids + [id], all)
  {
  }

  lemma {:induction false} DistinctFew(ids: seq<FileId>, all: set<FileId>)
    requires Distinct(ids, all)
    ensures |ids| <= |all|
    decreases |ids|
  {
    if ids != [] {
      var last := ids[|ids| - 1];
      DistinctFew(ids[..|ids| - 1], all - {last});
    }
  }

  /** A directory that is its own ancestor is never entered, so a walk is never deeper than there are
      directories. */
  lemma DepthBounded(w: World, st: State)
    requires Sound(w, st.rows)
    ensures |st.rows| <= |w.fs.ids| + 1
  {
    hide Placed, AllPlaced, Distinct, Entered;
    if st.rows != [] {
      var up := st.rows[..|st.rows| - 1];
      EnteredDistinct(w, up);
      DistinctFew(Above(up), w.fs.ids);
    }
  }

  /** Going over visits with the directories that are open: a directory visited first is opened, one
      visited again is the one opened last, and is closed. */
  function Scan(vs: seq<Ent>, open: seq<string>): Option<seq<string>> {
    if vs == [] then
      Some(open)
    else if vs[0].info == D then
      Scan(vs[1..], open + [vs[0].path])
    else if vs[0].info == DP || vs[0].info == DNR || vs[0].info == ERR then
      if open != [] && open[|open| - 1] == vs[0].path then Scan(vs[1..], open[..|open| - 1]) else None
    else
      Scan(vs[1..], open)
  }

  lemma {:induction false} ScanJoin(a: seq<Ent>, b: seq<Ent>, open: seq<string>)
    ensures Scan(a + b, open) == if Scan(a, open).None? then None else Scan(b, Scan(a, open).value)
    decreases |a|
  {
    if a == [] {
      assert a + b == b;
    } else {
      assert (a + b)[1..] == a[1..] + b;
      ScanJoin(a[1..], b, open + [a[0].path]);
      ScanJoin(a[1..], b, open);
      if open != [] {
        ScanJoin(a[1..], b, open[..|open| - 1]);
      }
    }
  }

  lemma {:induction false} InsideBalanced(w: World, dev: int, e: Ent, above: seq<FileId>, open: seq<string>)
    requires Sane(w.fs) && Permutes(w.sort) && Placed(w, e, above)
    ensures e.info != D ==> Inside(w, dev, e, above) == []
    ensures e.info == D ==> Scan(Inside(w, dev, e, above), open + [e.path]) == Some(open)
    decreases Room(w, above), 0
  {
    hide Sane, Permutes, TourAll, Crosses, Seen, AllPlaced, Inside, Scan;
    if e.info != D {
      InsideNone(w, dev, e, above);
    } else {
      InsideCases(w, dev, e, above);
      ScanClose(e.(info := DP), open);
      ScanClose(Done(e), open);
      var l := w.fs.list(e.path);
      if l.Unreadable? {
        ScanClose(e.(info := DNR, errno := l.errno), open);
      } else if !Crosses(w, dev, e) && Seen(w, l.names) != [] {
        var es := Listed(w, e, above, l.names);
        RoomLess(w, above, e.id);
        ListedOpen(w, e, above, l.names);
        TourBalanced(w, dev, es, above + [e.id], open + [e.path]);
        ScanJoin(TourAll(w, dev, es, above + [e.id]), [Done(e)], open + [e.path]);
      }
    }
  }

  lemma ScanClose(e: Ent, open: seq<string>)
    requires e.info == DP || e.info == DNR || e.info == ERR
    ensures Scan([e], open + [e.path]) == Some(open)
  {
    assert (open + [e.path])[..|open|] == open;
  }

  /** A tour opens and closes directories like parentheses: each is visited once before and once
      after what is inside it. */
  lemma {:induction false} TourBalanced(w: World, dev: int, es: seq<Ent>, above: seq<FileId>, open: seq<string>)
    requires Sane(w.fs) && Permutes(w.sort) && AllPlaced(w, es, above)
    requires NoneClosed(es)
    ensures Scan(TourAll(w, dev, es, above), open) == Some(open)
    decreases Room(w, above), |es| + 1
  {
    hide Sane, Permutes, AllPlaced, Inside, Scan, TourAll;
    if es == [] {
      ScanNone(open);
      EmptyTours(w);
    } else {
      TourStep(w, dev, es, above);
      var e := es[0];
      InsideBalanced(w, dev, e, above, open);
      TourBalanced(w, dev, es[1..], above, open);
      ScanVisit(e, Inside(w, dev, e, above), TourAll(w, dev, es[1..], above), open);
    }
  }

  lemma ScanNone(open: seq<string>)
    ensures Scan([], open) == Some(open)
  {
  }

  lemma ScanVisit(e: Ent, inside: seq<Ent>, rest: seq<Ent>, open: seq<string>)
    requires e.info != DP && e.info != DNR && e.info != ERR
    requires if e.info == D then Scan(inside, open + [e.path]) == Some(open) else inside == []
    ensures Scan([e] + inside + rest, open) == Scan(rest, open)
  {
    hide Scan;
    Cat3([e], inside, rest);
    ScanFirst(e, inside + rest, open);
    ScanJoin(inside, rest, open + [e.path]);
    Cat3(rest, [], []);
  }

  lemma ScanFirst(e: Ent, vs: seq<Ent>, open: seq<string>)
    requires e.info != DP && e.info != DNR && e.info != ERR
    ensures Scan([e] + vs, open) == Scan(vs, if e.info == D then open + [e.path] else open)
  {
    assert ([e] + vs)[1..] == vs;
  }

  lemma {:induction false} ChildrenOpen(w: World, dir: Ent, above: seq<FileId>, names: seq<string>)
    ensures NoneClosed(Children(w, dir, above, names))
  {
    if names != [] {
      ChildrenOpen(w, dir, above, names[1..]);
    }
  }

  lemma ListedOpen(w: World, e: Ent, above: seq<FileId>, names: seq<string>)
    ensures NoneClosed(Listed(w, e, above, names))
  {
    hide Children;
    ChildrenOpen(w, e, above + [e.id], Seen(w, names));
  }

  lemma {:induction false} RootsBalanced(w: World, es: seq<Ent>)
    requires Sane(w.fs) && Permutes(w.sort) && AllPlaced(w, es, []) && NoneClosed(es)
    ensures Scan(TourRoots(w, es), []) == Some([])
    decreases |es|
  {
    hide Sane, Permutes, AllPlaced, Inside, Scan, TourRoots;
    if es == [] {
      ScanNone([]);
      EmptyTours(w);
    } else {
      RootStep(w, es);
      var e := Loaded(es[0]);
      InsideBalanced(w, e.id.dev, e, [], []);
      RootsBalanced(w, es[1..]);
      ScanVisit(e, Inside(w, e.id.dev, e, []), TourRoots(w, es[1..]), []);
    }
  }

  /** Over a whole walk directories open and close like parentheses: each is visited first as a
      directory, then what is in it, then itself once more. */
  lemma WalkBalanced(w: World, argv: seq<string>)
    requires Sane(w.fs) && Permutes(w.sort)
    ensures Sound(w, Opened(w, argv).rows) && Scan(AllReads(w, Opened(w, argv)), []) == Some([])
  {
    hide Sane, AllPlaced, Permutes, Sound, TourRoots, Inside, AllReads, Todo, RootArgs, Reversed;
    WalkIsTour(w, argv);
    RootArgsOpen(w, argv);
    ReversedOpen(RootArgs(w, argv));
    RootsBalanced(w, Roots(w, argv));
  }

  lemma {:induction false} RootArgsOpen(w: World, argv: seq<string>)
    ensures NoneClosed(RootArgs(w, argv))
  {
    if argv != [] {
      RootArgsOpen(w, argv[1..]);
    }
  }

  lemma {:induction false} ReversedOpen(es: seq<Ent>)
    requires NoneClosed(es)
    ensures NoneClosed(Reversed(es))
  {
    if es != [] {
      ReversedOpen(es[1..]);
    }
  }

  predicate NoneClosed(es: seq<Ent>) {
    forall i | 0 <= i < |es| :: es[i].info != DP && es[i].info != DNR && es[i].info != ERR
  }
}
