// The command line of a program run through its dynamic loader: the argument vector is shifted in
// place to make room for the loader and its options.
module LoaderArgs {
  import opened Wrappers

  /** What the loader supports, and what there is to tell it; base is 1 for a loader that is run as a
      program. */
  datatype Loader = Loader(base: nat, argv0: bool, preload: bool, libraryPath: bool, inhibitRpath: bool,
                           inhibitCache: bool)

  datatype Values = Values(interp: string, preload: Option<string>, libraryPath: Option<string>,
                           inhibitRpath: Option<string>)

  /** An argument vector of fixed size, its arguments ended by the first None. */
  ghost predicate Vector(v: seq<Option<string>>, args: seq<string>) {
    |args| < |v| && v[|args|] == None && forall i | 0 <= i < |args| :: v[i] == Some(args[i])
  }

  function Two(on: bool, name: string, value: string): seq<string> {
    if on then [name, value] else []
  }

  /** The options a loader is given. */
  function OptionArgs(l: Loader, v: Values, argv0: string): seq<string> {
    Two(l.preload && v.preload.Some?, "--preload", if v.preload.Some? then v.preload.value else "")
    + Two(l.libraryPath && v.libraryPath.Some?, "--library-path",
          if v.libraryPath.Some? then v.libraryPath.value else "")
    + Two(l.inhibitRpath && v.inhibitRpath.Some?, "--inhibit-rpath",
          if v.inhibitRpath.Some? then v.inhibitRpath.value else "")
    + (if l.inhibitCache then ["--inhibit-cache"] else [])
    + Two(l.argv0, "--argv0", argv0)
  }

  /** How far the arguments are shifted. */
  function Shift(l: Loader, v: Values): nat {
    l.base + (if l.argv0 then 2 else 0) + (if l.preload && v.preload.Some? then 2 else 0)
    + (if l.libraryPath && v.libraryPath.Some? then 2 else 0)
    + (if l.inhibitRpath && v.inhibitRpath.Some? then 2 else 0) + (if l.inhibitCache then 1 else 0)
  }

  /** What goes in front of the program: nothing when the loader is not run as a program. */
  function Front(l: Loader, v: Values, argv0: string): seq<string> {
    if Shift(l, v) == 0 then [] else [v.interp] + OptionArgs(l, v, argv0)
  }

  /** The loader and its options fill exactly the room made for them, for every loader that is run as
      a program, and for one that is not when it has no options. */
  lemma FrontFits(l: Loader, v: Values, argv0: string)
    requires l.base <= 1
    ensures |Front(l, v, argv0)| == Shift(l, v) <==> l.base == 1 || Shift(l, v) == 0
    ensures |OptionArgs(l, v, argv0)| == Shift(l, v) - l.base && Shift(l, v) <= 10
  {
  }

  // ---- what the loader is told, and how

  /** An option with its value, if it takes one; or a variable. */
  datatype Setting = Setting(name: string, value: Option<string>)

  /** Those that are on. */
  function Picked(cs: seq<(bool, Setting)>): seq<Setting> {
    if cs == [] then [] else (if cs[0].0 then [cs[0].1] else []) + Picked(cs[1..])
  }

  predicate OwnNames(cs: seq<(bool, Setting)>) {
    forall i, j | 0 <= i < j < |cs| :: cs[i].1.name != cs[j].1.name
  }

  predicate Named(ss: seq<Setting>, name: string) {
    exists x | x in ss :: x.name == name
  }

  predicate NoneTwice(ss: seq<Setting>) {
    forall i, j | 0 <= i < j < |ss| :: ss[i].name != ss[j].name
  }

  lemma {:induction false} PickedAre(cs: seq<(bool, Setting)>)
    ensures forall x :: x in Picked(cs) <==> (true, x) in cs
    decreases |cs|
  {
    if cs != [] {
      PickedAre(cs[1..]);
      assert cs == [cs[0]] + cs[1..];
    }
  }

  lemma {:induction false} PickedOnce(cs: seq<(bool, Setting)>)
    requires OwnNames(cs)
    ensures NoneTwice(Picked(cs))
    decreases |cs|
  {
    if cs != [] {
      PickedOnce(cs[1..]);
      PickedAre(cs[1..]);
      var rest := Picked(cs[1..]);
      if cs[0].0 {
        forall j | 0 <= j < |rest|
          ensures rest[j].name != cs[0].1.name
        {
          assert rest[j] in rest;
          var i :| 0 <= i < |cs[1..]| && cs[1..][i] == (true, rest[j]);
          assert cs[i + 1] == (true, rest[j]);
        }
      }
    }
  }

  /** What can stand in front of the program, in its order. */
  function OptionList(l: Loader, v: Values, argv0: string): seq<(bool, Setting)> {
    [(l.preload && v.preload.Some?, Setting("--preload", v.preload)),
     (l.libraryPath && v.libraryPath.Some?, Setting("--library-path", v.libraryPath)),
     (l.inhibitRpath && v.inhibitRpath.Some?, Setting("--inhibit-rpath", v.inhibitRpath)),
     (l.inhibitCache, Setting("--inhibit-cache", None)),
     (l.argv0, Setting("--argv0", Some(argv0)))]
  }

  /** What can be set for a loader that has no option for it. */
  function VariableList(l: Loader, v: Values, argv0: string): seq<(bool, Setting)> {
    var shift := Shift(l, v) > 0;
    [(v.preload.Some? && !(shift && l.preload), Setting("LD_PRELOAD", v.preload)),
     (v.libraryPath.Some? && !(shift && l.libraryPath), Setting("LD_LIBRARY_PATH", v.libraryPath)),
     (!(shift && l.argv0), Setting("argv0", Some(argv0)))]
  }

  function Options(l: Loader, v: Values, argv0: string): seq<Setting> {
    Picked(OptionList(l, v, argv0))
  }

  function Variables(l: Loader, v: Values, argv0: string): seq<Setting> {
    Picked(VariableList(l, v, argv0))
  }

  /** The words of options: each with its value right behind it. */
  function Words(ss: seq<Setting>): seq<string> {
    if ss == [] then
      []
    else
      [ss[0].name] + (if ss[0].value.Some? then [ss[0].value.value] else []) + Words(ss[1..])
  }

  function WordsOf(c: (bool, Setting)): seq<string> {
    if !c.0 then [] else if c.1.value.Some? then [c.1.name, c.1.value.value] else [c.1.name]
  }

  lemma PickedStep(c: (bool, Setting), more: seq<(bool, Setting)>)
    ensures Words(Picked([c] + more)) == WordsOf(c) + Words(Picked(more))
  {
    assert ([c] + more)[1..] == more;
    var p := Picked(more);
    assert [] + p == p && ([c.1] + p)[1..] == p && [] + Words(p) == Words(p);
  }

  lemma NoWords()
    ensures Words(Picked([])) == []
  {
  }

  lemma FiveWords(a: (bool, Setting), b: (bool, Setting), c: (bool, Setting), d: (bool, Setting), e: (bool, Setting))
    ensures Words(Picked([a, b, c, d, e])) == WordsOf(a) + WordsOf(b) + WordsOf(c) + WordsOf(d) + WordsOf(e)
  {
    hide Words, Picked, WordsOf;
    NoWords();
    PickedStep(e, []);
    assert [e] + [] == [e];
    PickedStep(d, [e]);
    assert [d] + [e] == [d, e];
    PickedStep(c, [d, e]);
    assert [c] + [d, e] == [c, d, e];
    PickedStep(b, [c, d, e]);
    assert [b] + [c, d, e] == [b, c, d, e];
    PickedStep(a, [b, c, d, e]);
    assert [a] + [b, c, d, e] == [a, b, c, d, e];
    JoinFive(WordsOf(a), WordsOf(b), WordsOf(c), WordsOf(d), WordsOf(e));
  }

  lemma JoinFive(a: seq<string>, b: seq<string>, c: seq<string>, d: seq<string>, e: seq<string>)
    ensures a + (b + (c + (d + (e + [])))) == a + b + c + d + e
  {
  }

  /** The words written for the loader are those of its options. */
  lemma OptionWords(l: Loader, v: Values, argv0: string)
    ensures OptionArgs(l, v, argv0) == Words(Options(l, v, argv0))
  {
    hide Words, Picked;
    var cs := OptionList(l, v, argv0);
    FiveWords(cs[0], cs[1], cs[2], cs[3], cs[4]);
  }

  /** A value is told as an option, or as a variable, or not at all. */
  predicate Told(os: seq<Setting>, vs: seq<Setting>, name: string, variable: string, value: Option<string>,
                 supported: bool) {
    && (Setting(name, value) in os <==> supported && value.Some?)
    && (Setting(variable, value) in vs <==> !supported && value.Some?)
    && (!supported || value.None? ==> !Named(os, name))
    && (supported || value.None? ==> !Named(vs, variable))
  }

  /** No option and no variable is given twice; what there is to tell the loader is told exactly once: as
      an option if the loader has one for it, else as a variable. */
  lemma GivenOnce(l: Loader, v: Values, argv0: string)
    ensures var os := Options(l, v, argv0); var vs := Variables(l, v, argv0);
            && NoneTwice(os) && NoneTwice(vs)
            && Told(os, vs, "--preload", "LD_PRELOAD", v.preload, l.preload)
            && Told(os, vs, "--library-path", "LD_LIBRARY_PATH", v.libraryPath, l.libraryPath)
            && Told(os, vs, "--argv0", "argv0", Some(argv0), l.argv0)
            && (Setting("--inhibit-cache", None) in os <==> l.inhibitCache)
            && (Setting("--inhibit-rpath", v.inhibitRpath) in os <==> l.inhibitRpath && v.inhibitRpath.Some?)
  {
    hide Picked, NoneTwice, Told, OptionList, VariableList, Named;
    OwnOptionNames(l, v, argv0);
    PickedOnce(OptionList(l, v, argv0));
    PickedOnce(VariableList(l, v, argv0));
    ToldPreload(l, v, argv0);
    ToldLibraryPath(l, v, argv0);
    ToldArgv0(l, v, argv0);
    ToldInhibit(l, v, argv0);
  }

  lemma OwnOptionNames(l: Loader, v: Values, argv0: string)
    ensures OwnNames(OptionList(l, v, argv0)) && OwnNames(VariableList(l, v, argv0))
  {
  }

  /** Where a name stands at one place of the list only, what is picked under it is what stands there. */
  lemma PickedAt(cs: seq<(bool, Setting)>, i: nat)
    requires i < |cs| && OwnNames(cs)
    ensures cs[i].1 in Picked(cs) <==> cs[i].0
    ensures Named(Picked(cs), cs[i].1.name) <==> cs[i].0
  {
    PickedAre(cs);
    if Named(Picked(cs), cs[i].1.name) {
      var x :| x in Picked(cs) && x.name == cs[i].1.name;
      var j :| 0 <= j < |cs| && cs[j] == (true, x);
    }
    if cs[i].1 in Picked(cs) {
      var j :| 0 <= j < |cs| && cs[j] == (true, cs[i].1);
    }
    if cs[i].0 {
      assert cs[i] == (true, cs[i].1);
    }
  }

  lemma ToldPreload(l: Loader, v: Values, argv0: string)
    ensures Told(Options(l, v, argv0), Variables(l, v, argv0), "--preload", "LD_PRELOAD", v.preload, l.preload)
  {
    hide Picked, Named, OwnNames;
    OwnOptionNames(l, v, argv0);
    PickedAt(OptionList(l, v, argv0), 0);
    PickedAt(VariableList(l, v, argv0), 0);
  }

  lemma ToldLibraryPath(l: Loader, v: Values, argv0: string)
    ensures Told(Options(l, v, argv0), Variables(l, v, argv0), "--library-path", "LD_LIBRARY_PATH", v.libraryPath,
                 l.libraryPath)
  {
    hide Picked, Named, OwnNames;
    OwnOptionNames(l, v, argv0);
    PickedAt(OptionList(l, v, argv0), 1);
    PickedAt(VariableList(l, v, argv0), 1);
  }

  lemma ToldArgv0(l: Loader, v: Values, argv0: string)
    ensures Told(Options(l, v, argv0), Variables(l, v, argv0), "--argv0", "argv0", Some(argv0), l.argv0)
  {
    hide Picked, Named, OwnNames;
    OwnOptionNames(l, v, argv0);
    PickedAt(OptionList(l, v, argv0), 4);
    PickedAt(VariableList(l, v, argv0), 2);
  }

  lemma ToldInhibit(l: Loader, v: Values, argv0: string)
    ensures Setting("--inhibit-cache", None) in Options(l, v, argv0) <==> l.inhibitCache
    ensures Setting("--inhibit-rpath", v.inhibitRpath) in Options(l, v, argv0) <==>
            l.inhibitRpath && v.inhibitRpath.Some?
  {
    hide Picked, Named, OwnNames;
    OwnOptionNames(l, v, argv0);
    PickedAt(OptionList(l, v, argv0), 2);
    PickedAt(OptionList(l, v, argv0), 3);
  }

  const SLOTS: nat := 15

  /** The number of arguments. */
  method Count(interparg: array<Option<string>>, ghost args: seq<string>) returns (n: nat)
    requires Vector(interparg[..], args)
    ensures n == |args|
  {
    n := 0;
    while interparg[n].Some?
      invariant n <= |args|
      decreases |args| - n
    {
      n := n + 1;
    }
  }

  /** Move the arguments behind the first, and the end, up by `shift`. */
  method ShiftArgs(interparg: array<Option<string>>, n: nat, shift: nat)
    requires 0 < n && n + shift < interparg.Length
    modifies interparg
    ensures forall k | 1 <= k <= n :: interparg[k + shift] == old(interparg[k])
    ensures interparg[0] == old(interparg[0]) || shift == 0
  {
    var j := n + shift;
    while j > shift
      invariant shift <= j <= n + shift
      invariant forall k | j < k <= n + shift :: interparg[k] == old(interparg[k - shift])
      invariant forall k | 0 <= k <= j :: interparg[k] == old(interparg[k])
    {
      interparg[j] := interparg[j - shift];
      j := j - 1;
    }
  }

  /** Write one argument at the front. */
  method Put(interparg: array<Option<string>>, i: nat, s: string, ghost done: seq<string>) returns (i': nat)
    requires i == |done| < interparg.Length && forall k | 0 <= k < i :: interparg[k] == Some(done[k])
    modifies interparg
    ensures i' == i + 1 && forall k | 0 <= k < i' :: interparg[k] == Some((done + [s])[k])
    ensures forall k | i' <= k < interparg.Length :: interparg[k] == old(interparg[k])
  {
    interparg[i] := Some(s);
    i' := i + 1;
  }

  method PutTwo(interparg: array<Option<string>>, i: nat, on: bool, name: string, value: string,
                ghost done: seq<string>)
    returns (i': nat)
    requires i == |done| && i + 2 < interparg.Length && forall k | 0 <= k < i :: interparg[k] == Some(done[k])
    modifies interparg
    ensures i' == |done + Two(on, name, value)|
    ensures forall k | 0 <= k < i' :: interparg[k] == Some((done + Two(on, name, value))[k])
    ensures forall k | i' <= k < interparg.Length :: interparg[k] == old(interparg[k])
  {
    i' := i;
    if on {
      i' := Put(interparg, i', name, done);
      i' := Put(interparg, i', value, done + [name]);
      assert done + [name] + [value] == done + [name, value];
    }
  }

  /** Write the loader and its options over the room made at the front. */
  method PutFront(interparg: array<Option<string>>, l: Loader, v: Values, argv0: string) returns (i: nat)
    requires interparg.Length == SLOTS && Shift(l, v) > 0
    modifies interparg
    ensures i == |Front(l, v, argv0)| && forall k | 0 <= k < i :: interparg[k] == Some(Front(l, v, argv0)[k])
    ensures forall k | i <= k < SLOTS :: interparg[k] == old(interparg[k])
  {
    hide Two, Shift;
    ghost var f0 := [v.interp];
    i := Put(interparg, 0, v.interp, []);
    assert [] + f0 == f0;
    var pre := if v.preload.Some? then v.preload.value else "";
    i := PutTwo(interparg, i, l.preload && v.preload.Some?, "--preload", pre, f0);
    ghost var f1 := f0 + Two(l.preload && v.preload.Some?, "--preload", pre);
    TwoLen(l.preload && v.preload.Some?, "--preload", pre);
    var lib := if v.libraryPath.Some? then v.libraryPath.value else "";
    i := PutTwo(interparg, i, l.libraryPath && v.libraryPath.Some?, "--library-path", lib, f1);
    ghost var f2 := f1 + Two(l.libraryPath && v.libraryPath.Some?, "--library-path", lib);
    TwoLen(l.libraryPath && v.libraryPath.Some?, "--library-path", lib);
    var rp := if v.inhibitRpath.Some? then v.inhibitRpath.value else "";
    i := PutTwo(interparg, i, l.inhibitRpath && v.inhibitRpath.Some?, "--inhibit-rpath", rp, f2);
    ghost var f3 := f2 + Two(l.inhibitRpath && v.inhibitRpath.Some?, "--inhibit-rpath", rp);
    TwoLen(l.inhibitRpath && v.inhibitRpath.Some?, "--inhibit-rpath", rp);
    i := PutRest(interparg, i, l, argv0, f3);
    FrontParts(l, v, argv0, pre, lib, rp);
  }

  method PutRest(interparg: array<Option<string>>, i0: nat, l: Loader, argv0: string, ghost done: seq<string>)
    returns (i: nat)
    requires i0 == |done| <= 7 && interparg.Length == SLOTS && forall k | 0 <= k < i0 :: interparg[k] == Some(done[k])
    modifies interparg
    ensures var all := done + ((if l.inhibitCache then ["--inhibit-cache"] else []) + Two(l.argv0, "--argv0", argv0));
            i == |all| && forall k | 0 <= k < i :: interparg[k] == Some(all[k])
    ensures forall k | i <= k < SLOTS :: interparg[k] == old(interparg[k])
  {
    i := i0;
    ghost var f := done;
    if l.inhibitCache {
      i := Put(interparg, i, "--inhibit-cache", f);
      f := f + ["--inhibit-cache"];
    }
    i := PutTwo(interparg, i, l.argv0, "--argv0", argv0, f);
    assert f + Two(l.argv0, "--argv0", argv0)
        == done + ((if l.inhibitCache then ["--inhibit-cache"] else []) + Two(l.argv0, "--argv0", argv0));
  }

  lemma TwoLen(on: bool, name: string, value: string)
    ensures |Two(on, name, value)| <= 2
  {
  }

  lemma FrontParts(l: Loader, v: Values, argv0: string, pre: string, lib: string, rp: string)
    requires Shift(l, v) > 0
    requires pre == (if v.preload.Some? then v.preload.value else "")
    requires lib == (if v.libraryPath.Some? then v.libraryPath.value else "")
    requires rp == (if v.inhibitRpath.Some? then v.inhibitRpath.value else "")
    ensures Front(l, v, argv0) ==
              [v.interp] + Two(l.preload && v.preload.Some?, "--preload", pre)
              + Two(l.libraryPath && v.libraryPath.Some?, "--library-path", lib)
              + Two(l.inhibitRpath && v.inhibitRpath.Some?, "--inhibit-rpath", rp)
              + ((if l.inhibitCache then ["--inhibit-cache"] else []) + Two(l.argv0, "--argv0", argv0))
  {
    hide Two, Shift;
  }

  /** The rewritten vector: the loader, its options, the program, the old arguments but the first. */
  function Rewritten(l: Loader, v: Values, args: seq<string>, path: string): seq<string>
    requires args != []
  {
    Front(l, v, args[0]) + [path] + args[1..]
  }

  /** Nothing is lost and nothing moves among the old arguments; the options stand in their order,
      each with its value, between the loader and the program. */
  lemma RewrittenParts(l: Loader, v: Values, args: seq<string>, path: string)
    requires args != [] && l.base <= 1 && (l.base == 1 || Shift(l, v) == 0)
    ensures var r := Rewritten(l, v, args, path); var s := Shift(l, v);
            && |r| == |args| + s && r[s] == path && r[s + 1..] == args[1..]
            && (s > 0 ==> r[0] == v.interp && r[1..s] == OptionArgs(l, v, args[0]))
  {
    hide Shift, OptionArgs;
    FrontFits(l, v, args[0]);
    var f := Front(l, v, args[0]);
    assert (f + [path] + args[1..])[|f| + 1..] == args[1..];
    if Shift(l, v) > 0 {
      assert (f + [path] + args[1..])[1..|f|] == OptionArgs(l, v, args[0]);
    }
  }

  lemma VectorFrom(s: seq<Option<string>>, f: seq<string>, path: string, rest: seq<string>)
    requires |f| + 1 + |rest| < |s|
    requires forall k | 0 <= k < |f| :: s[k] == Some(f[k])
    requires s[|f|] == Some(path) && s[|f| + 1 + |rest|] == None
    requires forall k | 0 <= k < |rest| :: s[|f| + 1 + k] == Some(rest[k])
    ensures Vector(s, f + [path] + rest)
  {
    var all := f + [path] + rest;
    forall i | 0 <= i < |all|
      ensures s[i] == Some(all[i])
    {
      if i > |f| {
        assert s[|f| + 1 + (i - |f| - 1)] == Some(rest[i - |f| - 1]);
      }
    }
  }

  /** The variables set where the loader has no option. */
  method SetVariables(l: Loader, v: Values, argv0: string, shift: nat) returns (vars: seq<Setting>)
    requires shift == Shift(l, v)
    ensures vars == Variables(l, v, argv0)
  {
    hide Shift;
    vars := [];
    ghost var cs := VariableList(l, v, argv0);
    if v.preload.Some? && !(shift > 0 && l.preload) {
      vars := vars + [Setting("LD_PRELOAD", v.preload)];
    }
    if v.libraryPath.Some? && !(shift > 0 && l.libraryPath) {
      vars := vars + [Setting("LD_LIBRARY_PATH", v.libraryPath)];
    }
    if !(shift > 0 && l.argv0) {
      vars := vars + [Setting("argv0", Some(argv0))];
    }
    ThreePicked(cs[0], cs[1], cs[2]);
  }

  lemma ThreePicked(a: (bool, Setting), b: (bool, Setting), c: (bool, Setting))
    ensures Picked([a, b, c])
         == (if a.0 then [a.1] else []) + (if b.0 then [b.1] else []) + (if c.0 then [c.1] else [])
  {
    assert [a, b, c][1..] == [b, c] && [b, c][1..] == [c] && [c][1..] == [];
    assert Picked([c]) == if c.0 then [c.1] else [];
    assert Picked([b, c]) == (if b.0 then [b.1] else []) + Picked([c]);
    assert Picked([a, b, c]) == (if a.0 then [a.1] else []) + Picked([b, c]);
  }

  /** What __ldso does with the vector once it knows the loader. */
  method LdsoArgs(interparg: array<Option<string>>, l: Loader, v: Values, path: string, ghost args: seq<string>)
    returns (n: nat, vars: seq<Setting>)
    requires interparg.Length == SLOTS && Vector(interparg[..], args) && 0 < |args| <= 4
    requires l.base <= 1 && (l.base == 1 || Shift(l, v) == 0)
    modifies interparg
    ensures n == |args| + Shift(l, v) && Vector(interparg[..], Rewritten(l, v, args, path))
    ensures vars == Variables(l, v, args[0])
  {
    hide Shift, Front, OptionArgs, Variables;
    var argv0 := interparg[0].value;
    var shift := Shift(l, v);
    FrontFits(l, v, argv0);
    var j := Count(interparg, args);
    ghost var was := interparg[..];
    assert forall k | 1 <= k < |args| :: was[k] == Some(args[1..][k - 1]);
    ShiftArgs(interparg, j, shift);
    var i := 0;
    if shift > 0 {
      i := PutFront(interparg, l, v, argv0);
    }
    vars := SetVariables(l, v, argv0, shift);
    interparg[i] := Some(path);
    n := i + j;
    interparg[n] := None;
    forall k | 0 <= k < |args[1..]|
      ensures interparg[shift + 1 + k] == Some(args[1..][k])
    {
      assert interparg[(k + 1) + shift] == was[k + 1];
    }
    VectorFrom(interparg[..], Front(l, v, argv0), path, args[1..]);
  }

  const ARG_MAX: nat := 131072

  /** The vector handed to the kernel: the rewritten arguments, then the caller's but the first. */
  method ExecArgs(interparg: array<Option<string>>, argv: array<Option<string>>, ghost args: seq<string>,
                  ghost given: seq<string>)
    returns (nargv: array?<Option<string>>)
    requires Vector(interparg[..], args) && Vector(argv[..], given) && given != []
    ensures nargv == null <==> |args| + |given| >= ARG_MAX
    ensures nargv != null ==> fresh(nargv) && Vector(nargv[..], args + given[1..])
  {
    var argc := 1;
    var a := Count(interparg, args);
    var b := Count(argv, given);
    argc := argc + a + (b - 1);
    if argc >= ARG_MAX {
      return null;
    }
    nargv := new Option<string>[argc + 1](i => None);
    ghost var all := args + given[1..];
    var k := 0;
    while k < a
      modifies nargv
      invariant 0 <= k <= a && forall i | 0 <= i < k :: nargv[i] == Some(all[i])
    {
      nargv[k] := interparg[k];
      k := k + 1;
    }
    while k < a + b - 1
      modifies nargv
      invariant a <= k <= a + b - 1 && forall i | 0 <= i < k :: nargv[i] == Some(all[i])
    {
      assert all[k] == given[k - a + 1];
      nargv[k] := argv[k - a + 1];
      k := k + 1;
    }
    nargv[k] := None;
  }
}
