// The paths of the nodes of a walk: each is its directory's path with its name behind.
module FtsPaths {
  import opened FileNames
  import opened CStrings
  import opened FtsTree
  import opened FtsWalk

  predicate PathText(p: string) {
    p != "" && NoNul(p)
  }

  predicate BelowOk(dir: string, e: Ent) {
    IsName(e.name) && e.path == ChildPath(dir, e.name)
  }

  predicate AllBelow(dir: string, es: seq<Ent>) {
    forall i | 0 <= i < |es| :: BelowOk(dir, es[i])
  }

  /** Roots still to come are named by their paths. */
  predicate RootsOk(es: seq<Ent>) {
    forall i | 0 <= i < |es| :: es[i].name == es[i].path && PathText(es[i].path)
  }

  predicate RowSpelled(up: seq<Row>, r: Row) {
    if up == [] then
      RootsOk(r.rest) && (r.head.info == INIT || PathText(r.head.path))
    else
      && up[|up| - 1].head.info != INIT
      && BelowOk(up[|up| - 1].head.path, r.head) && AllBelow(up[|up| - 1].head.path, r.rest)
  }

  ghost predicate Spelled(rows: seq<Row>)
    decreases |rows|
  {
    rows == [] || (Spelled(rows[..|rows| - 1]) && RowSpelled(rows[..|rows| - 1], rows[|rows| - 1]))
  }

  lemma SpelledStep(up: seq<Row>, r: Row)
    ensures Spelled(up + [r]) == (Spelled(up) && RowSpelled(up, r))
  {
    hide RowSpelled;
    assert (up + [r])[..|up|] == up;
  }

  lemma ChildText(dir: string, name: string)
    requires PathText(dir) && IsName(name)
    ensures PathText(ChildPath(dir, name)) && dir <= ChildPath(dir, name) && |dir| < |ChildPath(dir, name)|
    ensures ChildPath(dir, name)[|ChildPath(dir, name)| - 1] != '/'
  {
  }

  /** Every node on the way down, once it has been visited, has a path. */
  lemma {:induction false} HeadText(rows: seq<Row>)
    requires Spelled(rows) && rows != [] && rows[|rows| - 1].head.info != INIT
    ensures PathText(rows[|rows| - 1].head.path)
    ensures |rows| > 1 ==> var p := rows[|rows| - 1].head.path; p[|p| - 1] != '/'
    decreases |rows|
  {
    hide PathText;
    var up := rows[..|rows| - 1];
    if up != [] {
      HeadText(up);
      ChildText(up[|up| - 1].head.path, rows[|rows| - 1].head.name);
    }
  }

  lemma {:induction false} ChildrenBelow(w: World, dir: Ent, above: seq<FileId>, names: seq<string>)
    requires forall i | 0 <= i < |names| :: IsName(names[i])
    ensures AllBelow(dir.path, Children(w, dir, above, names))
  {
    hide IsName;
    if names != [] {
      assert IsName(names[0]);
      ChildrenBelow(w, dir, above, names[1..]);
    }
  }

  lemma {:induction false} SeenNames(w: World, names: seq<string>)
    requires forall i | 0 <= i < |names| :: IsName(names[i])
    ensures forall i | 0 <= i < |Seen(w, names)| :: IsName(Seen(w, names)[i])
  {
    hide IsName, IsDot;
    if names != [] {
      assert IsName(names[0]);
      SeenNames(w, names[1..]);
    }
  }

  lemma ListedBelow(w: World, e: Ent, above: seq<FileId>)
    requires Sane(w.fs) && w.fs.list(e.path).Entries?
    ensures AllBelow(e.path, Listed(w, e, above, w.fs.list(e.path).names))
  {
    hide IsName, Children, Seen, BelowOk;
    var names := w.fs.list(e.path).names;
    forall i | 0 <= i < |names|
      ensures IsName(names[i])
    {
    }
    SeenNames(w, names);
    ChildrenBelow(w, e, above + [e.id], Seen(w, names));
  }

  lemma SetHeadSpelled(rows: seq<Row>, e: Ent)
    requires rows != [] && Spelled(rows)
    requires var c := rows[|rows| - 1].head; e.path == c.path && e.name == c.name && (c.info == INIT ==> e.info == INIT)
    ensures Spelled(SetHead(rows, e))
  {
    hide Spelled, RowSpelled;
    var up := rows[..|rows| - 1];
    var r := rows[|rows| - 1];
    assert rows == up + [r] && SetHead(rows, e) == up + [r.(head := e)];
    SpelledStep(up, r);
    SpelledStep(up, r.(head := e));
    RowHead(up, r, e);
  }

  lemma RowHead(up: seq<Row>, r: Row, e: Ent)
    requires RowSpelled(up, r) && e.path == r.head.path && e.name == r.head.name &&
             (r.head.info == INIT ==> e.info == INIT)
    ensures RowSpelled(up, r.(head := e))
  {
    hide PathText, IsName, ChildPath, AllBelow, RootsOk;
  }

  /** Every read keeps the paths in order. */
  lemma ReadSpelled(w: World, st: State, instr: Instr)
    requires Sane(w.fs) && Spelled(st.rows)
    requires st.rows != [] && st.rows[|st.rows| - 1].head.info == INIT ==> instr == NOINSTR
    ensures Spelled(Read(w, st, instr).st.rows)
  {
    hide Spelled, Above, Into, Onward, Stated, Sane;
    if st.rows != [] {
      var c := st.rows[|st.rows| - 1].head;
      var above := Above(st.rows[..|st.rows| - 1]);
      if instr == AGAIN || (instr == FOLLOW && (c.info == SL || c.info == SLNONE)) {
        StatedPlaced'(w, c, instr == FOLLOW, above);
        SetHeadSpelled(st.rows, Stated(w, c, instr == FOLLOW, above));
      } else if c.info == D {
        IntoSpelled(w, st, instr);
      } else {
        OnwardSpelled(w, st);
      }
    }
  }

  lemma StatedPlaced'(w: World, e: Ent, follow: bool, above: seq<FileId>)
    ensures var s := Stated(w, e, follow, above); s.path == e.path && s.name == e.name
  {
  }

  lemma IntoSpelled(w: World, st: State, instr: Instr)
    requires Sane(w.fs) && Spelled(st.rows) && st.rows != [] && st.rows[|st.rows| - 1].head.info == D
    ensures Spelled(Into(w, st, instr).st.rows)
  {
    hide Spelled, Above, Sane, Seen, Listed, Crosses;
    var rows := st.rows;
    var c := rows[|rows| - 1].head;
    var up := rows[..|rows| - 1];
    SetHeadSpelled(rows, c.(info := DP));
    match w.fs.list(c.path)
    case Unreadable(errno) => SetHeadSpelled(rows, c.(info := DNR, errno := errno));
    case Entries(names) =>
      var es := Listed(w, c, Above(up), names);
      if es != [] {
        ListedBelow(w, c, Above(up));
        SpelledStep(rows, Row(es[0], es[1..]));
      }
  }

  lemma OnwardSpelled(w: World, st: State)
    requires Spelled(st.rows) && st.rows != []
    ensures Spelled(Onward(w, st).st.rows)
  {
    hide Spelled, PathText, BelowOk;
    var rows := st.rows;
    var r := rows[|rows| - 1];
    var up := rows[..|rows| - 1];
    assert rows == up + [r];
    SpelledStep(up, r);
    assert up != [] ==> up[|up| - 1].head.info != INIT;
    if r.rest != [] {
      var e := r.rest[0];
      if up == [] {
        SpelledStep(up, Row(Loaded(e), r.rest[1..]));
        assert [] + [Row(Loaded(e), r.rest[1..])] == [Row(Loaded(e), r.rest[1..])];
      } else {
        SpelledStep(up, Row(e, r.rest[1..]));
      }
    } else if up == [] {
      SpelledNone();
    } else {
      SetHeadSpelled(up, Done(up[|up| - 1].head));
    }
  }

  lemma SpelledNone()
    ensures Spelled([])
  {
  }
}
