// Whole walks through the linked nodes: a walk read to its end visits the tour, and one walk that loses
// the slash at the end of a root's name.
module FtsRuns {
  import opened CStrings
  import opened FtsTree
  import opened FtsWalk
  import opened FtsShape
  import opened FtsPaths
  import opened FtsNodes
  import opened Wrappers

  lemma ReadsStep(w: World, st: State)
    requires Sane(w.fs) && Permutes(w.sort) && Sound(w, st.rows)
    ensures var t := Read(w, st, NOINSTR);
            Sound(w, t.st.rows) && AllReads(w, st) == if t.visit.None? then [] else [t.visit.value] + AllReads(w, t.st)
  {
    hide Sane, Permutes, Sound, Read, Todo;
    ReadTodo(w, st);
  }

  /** A walk between two reads, no instruction given. */
  ghost predicate Walking(sp: Fts, w: World)
    reads sp, sp.repr, sp.top, sp.buf
  {
    sp.Valid() && sp.w == w && (sp.cur != null ==> sp.cur in sp.repr && sp.cur.instr == NOINSTR)
  }

  /** A walk before its first read. */
  method Begin(w: World, argv: seq<string>) returns (sp: Fts)
    requires Sane(w.fs) && Permutes(w.sort) && argv != []
    requires forall i | 0 <= i < |argv| :: argv[i] != "" && NoNul(argv[i])
    ensures fresh(sp) && fresh(sp.repr) && fresh(sp.buf) && Walking(sp, w) && sp.st == Opened(w, argv)
  {
    hide Sane, Permutes, Sound, Spelled, AllFit, Holds, Opened, ListOk, NoNul;
    var s, _ := Fts.FtsOpen(w, argv);
    s.CurAt();
    sp := s;
  }

  /** A read without an instruction. */
  method Read1(sp: Fts, w: World) returns (p: Node?)
    requires Walking(sp, w)
    modifies sp, sp.buf, sp.repr
    ensures Walking(sp, w) && p == sp.cur
    ensures (sp.buf == old(sp.buf) || fresh(sp.buf)) && fresh(sp.repr - old(sp.repr))
    ensures Read(w, old(sp.st), NOINSTR) == Turn(if p == null then None else Some(p.Val()), sp.st)
    ensures p != null ==> old(sp.st.rows) != [] && p.path == p.Val().path && p in sp.repr
    ensures p != null ==> p.name == p.Val().name && p.level == p.Val().level && p.info == p.Val().info
    ensures p != null ==>
              (Holds(sp.buf, p.path) <==> !(Emptied(w, old(sp.st), NOINSTR) && Trimmed(p.path) != p.path))
  {
    hide Sane, Permutes, Sound, Spelled, AllFit, ListOk, Read, Emptied, Trimmed, Holds, Above;
    p := sp.FtsRead();
    if p != null {
      sp.FtsSet(p, NOINSTR);
    }
  }

  /** What the caller is handed of a node. */
  datatype Stop = Stop(name: string, level: int, info: Info)

  function StopOf(e: Ent): Stop {
    Stop(e.name, e.level, e.info)
  }

  function Stops(es: seq<Ent>): seq<Stop> {
    if es == [] then [] else [StopOf(es[0])] + Stops(es[1..])
  }

  lemma {:induction false} StopsSnoc(es: seq<Ent>, e: Ent)
    ensures Stops(es + [e]) == Stops(es) + [StopOf(e)]
    decreases es
  {
    if es == [] {
      assert [] + [e] == [e];
      assert Stops([e]) == [StopOf(e)] + Stops([]);
    } else {
      assert (es + [e])[1..] == es[1..] + [e];
      StopsSnoc(es[1..], e);
    }
  }

  /** visits were made, p is the node just read, and what is still to be read is the rest of all. */
  ghost predicate Reading(w: World, st: State, all: seq<Ent>, visits: seq<Ent>, e: Option<Ent>) {
    && Sane(w.fs) && Permutes(w.sort) && Sound(w, st.rows)
    && all == visits + if e.None? then [] else [e.value] + AllReads(w, st)
  }

  lemma ReadingOn(w: World, st: State, all: seq<Ent>, visits: seq<Ent>, e: Ent)
    requires Reading(w, st, all, visits, Some(e))
    ensures Sane(w.fs) && Permutes(w.sort) && |visits| < |all|
    ensures var t := Read(w, st, NOINSTR); Reading(w, t.st, all, visits + [e], t.visit)
  {
    hide Sane, Permutes, Sound, Read;
    ReadsStep(w, st);
    assert all == (visits + [e]) + AllReads(w, st);
  }

  /** A read, and what the caller is handed of the node. */
  method ReadStop(sp: Fts, w: World) returns (stop: Option<Stop>, ghost visit: Option<Ent>)
    requires Walking(sp, w)
    modifies sp, sp.buf, sp.repr
    ensures Walking(sp, w) && (sp.buf == old(sp.buf) || fresh(sp.buf)) && fresh(sp.repr - old(sp.repr))
    ensures Read(w, old(sp.st), NOINSTR) == Turn(visit, sp.st)
    ensures stop == if visit.None? then None else Some(StopOf(visit.value))
  {
    hide *;
    var p := Read1(sp, w);
    stop, visit := None, None;
    if p != null {
      stop, visit := Some(Stop(p.name, p.level, p.info)), Some(p.Val());
      Shown(visit.value);
    }
  }

  lemma Shown(e: Ent)
    ensures StopOf(e) == Stop(e.name, e.level, e.info)
  {
  }

  /** From the roots to the end of the walk: the nodes returned, in order, are the tour, which shows the file
      system as it is. */
  method ReadAll(w: World, argv: seq<string>) returns (stops: seq<Stop>)
    requires Sane(w.fs) && Permutes(w.sort) && argv != []
    requires forall i | 0 <= i < |argv| :: argv[i] != "" && NoNul(argv[i])
    ensures AllPlaced(w, Roots(w, argv), []) && stops == Stops(TourRoots(w, Roots(w, argv)))
    ensures exists cs :: Arrangement(w, cs, argv) && RootsShown(w, cs, TourRoots(w, Roots(w, argv)))
  {
    hide *;
    ReadingFirst(w, argv);
    ghost var all, visits := TourRoots(w, Roots(w, argv)), [];
    var sp := Begin(w, argv);
    stops := [];
    StopsNone();
    var stop, visit := ReadStop(sp, w);
    while stop.Some?
      invariant fresh(sp) && fresh(sp.repr) && fresh(sp.buf) && Walking(sp, w)
      invariant Reading(w, sp.st, all, visits, visit) && stops == Stops(visits)
      invariant stop == if visit.None? then None else Some(StopOf(visit.value))
      decreases |all| - |visits|
    {
      stops := stops + [stop.value];
      StopsSnoc(visits, visit.value);
      ReadingOn(w, sp.st, all, visits, visit.value);
      visits := visits + [visit.value];
      stop, visit := ReadStop(sp, w);
    }
    ReadingDone(w, sp.st, all, visits);
    ghost var cs := TourShown(w, argv);
  }

  lemma StopsNone()
    ensures Stops([]) == []
  {
  }

  lemma ReadingFirst(w: World, argv: seq<string>)
    requires Sane(w.fs) && Permutes(w.sort) && argv != []
    requires forall i | 0 <= i < |argv| :: argv[i] != "" && NoNul(argv[i])
    ensures var st := Opened(w, argv);
            && Sound(w, st.rows) && AllPlaced(w, Roots(w, argv), [])
            && Reading(w, Read(w, st, NOINSTR).st, TourRoots(w, Roots(w, argv)), [], Read(w, st, NOINSTR).visit)
  {
    hide Sane, Permutes, Sound, Read, NoNul, Opened, Roots, TourRoots, AllPlaced;
    WalkIsTour(w, argv);
    ReadsStep(w, Opened(w, argv));
  }

  lemma ReadingDone(w: World, st: State, all: seq<Ent>, visits: seq<Ent>)
    requires Reading(w, st, all, visits, None)
    ensures visits == all
  {
  }

  const ID := FileId(1, 2)

  /** Every path is one and the same empty directory. */
  function EmptyFs(): Fs {
    Fs(p => Directory(ID), p => Directory(ID), p => Entries([]), {ID})
  }

  function EmptyWorld(): World {
    World(EmptyFs(), Options(false, false, false, false), false, ks => seq(|ks|, i => i))
  }

  const ROOT := Ent("a/", "a/", 0, D, ID, 0)

  lemma WorldFine()
    ensures Sane(EmptyWorld().fs) && Permutes(EmptyWorld().sort)
    ensures Roots(EmptyWorld(), ["a/"]) == [ROOT]
  {
    var w := EmptyWorld();
    assert ["a/"][1..] == [];
    assert RootArg(w, "a/") == ROOT;
    assert RootArgs(w, []) == [];
  }

  /** The walk before its first read, and what its first two reads make of it. */
  function Before(): State {
    Opened(EmptyWorld(), ["a/"])
  }

  function First(): Turn {
    Read(EmptyWorld(), Before(), NOINSTR)
  }

  function Second(): Turn {
    Read(EmptyWorld(), First().st, NOINSTR)
  }

  /** In pre-order the path of the root is shown, in post-order it is not: the slash is gone. */
  lemma SlashLost()
    ensures Before().rows != [] && First().visit.Some? && First().st.rows != [] && Second().visit.Some?
    ensures var e := First().visit.value; e.path == "a/" && e.info == D && !Emptied(EmptyWorld(), Before(), NOINSTR)
    ensures var e := Second().visit.value; e.path == "a/" && e.info == DP && Emptied(EmptyWorld(), First().st, NOINSTR)
    ensures Trimmed("a/") == "a" != "a/"
  {
    var w := EmptyWorld();
    WorldFine();
    var st0 := Opened(w, ["a/"]);
    assert st0 == State([Row(INIT_ENT, [ROOT])], 0);
    assert Read(w, st0, NOINSTR) == Onward(w, st0);
    var e := Loaded(ROOT);
    var st1 := State([Row(e, [])], 1);
    assert [ROOT][1..] == [];
    assert Onward(w, st0) == Turn(Some(e), st1);
    assert Seen(w, []) == [];
    assert Into(w, st1, NOINSTR).visit == Some(e.(info := DP));
  }

  method SecondRead(sp: Fts) returns (p: Node?)
    requires Walking(sp, EmptyWorld()) && sp.st == First().st
    modifies sp, sp.buf, sp.repr
    ensures p != null && p.path == "a/" && p.info == DP && !Holds(sp.buf, p.path)
  {
    SlashLost();
    hide Walking, Emptied, Holds, Trimmed, Before, Read, EmptyWorld, First;
    p := Read1(sp, EmptyWorld());
  }

  /** The walk itself: after its second read the path buffer does not hold the path of the node returned. */
  method LoseSlash() returns (sp: Fts, p: Node?)
    ensures p != null && p.path == "a/" && p.info == DP && !Holds(sp.buf, p.path)
  {
    WorldFine();
    assert NoNul("a/");
    hide Walking, Emptied, Holds, Trimmed, Opened, Read, EmptyWorld, Sane, Permutes;
    sp := Begin(EmptyWorld(), ["a/"]);
    p := Read1(sp, EmptyWorld());
    p := SecondRead(sp);
  }
}
