// A place reached while resolving: where it starts from and the names below that.
module PathDir {
  import opened PathText

  /** "/", "//", or the current directory with a number of leading "..". */
  datatype Base = Root | DoubleRoot | Rel(ups: nat)

  datatype Dir = Dir(base: Base, names: seq<string>)

  /** A name that can stay in a resolved path. */
  predicate IsName(x: string) {
    IsComp(x) && x != ".."
  }

  predicate Named(d: Dir) {
    forall x | x in d.names :: IsName(x)
  }

  /** The text with a separator behind it, where it needs one. */
  function Sep(o: string): (r: string)
    ensures o <= r && |r| <= |o| + 1
  {
    if o != "" && o[|o| - 1] != '/' then o + "/" else o
  }

  function Ups(n: nat): (r: string)
    ensures n > 0 ==> |r| == 3 * n - 1 && r[|r| - 1] == '.' && r[0] == '.'
    ensures n == 0 ==> r == ""
  {
    if n == 0 then "" else Sep(Ups(n - 1)) + ".."
  }

  function RenderBase(b: Base): string {
    match b
    case Root => "/"
    case DoubleRoot => "//"
    case Rel(n) => Ups(n)
  }

  /** The path text of a place. */
  function Render(d: Dir): (r: string)
    ensures !d.base.Rel? ==> r != ""
    decreases |d.names|
  {
    if d.names == [] then RenderBase(d.base) else Sep(Render(Parent(d))) + d.names[|d.names| - 1]
  }

  function Parent(d: Dir): Dir
    requires d.names != []
  {
    d.(names := d.names[..|d.names| - 1])
  }

  function Push(d: Dir, x: string): Dir {
    d.(names := d.names + [x])
  }

  lemma RenderPush(d: Dir, x: string)
    ensures Render(Push(d, x)) == Sep(Render(d)) + x
    ensures Parent(Push(d, x)) == d
  {
    assert (d.names + [x])[..|d.names|] == d.names;
  }

  /** Cutting the last component off a path text, as ".." does. */
  function CutToSlash(o: string): (r: string)
    ensures r <= o
    ensures r != "" ==> r[|r| - 1] == '/'
  {
    if o != "" && o[|o| - 1] != '/' then CutToSlash(o[..|o| - 1]) else o
  }

  function PopComp(o: string): string {
    var r := CutToSlash(o);
    if |r| > 1 && (|r| > 2 || r[0] != '/') then r[..|r| - 1] else r
  }

  lemma {:induction false} CutJoin(o: string, x: string)
    requires o == "" || o[|o| - 1] == '/'
    requires forall i | 0 <= i < |x| :: x[i] != '/'
    ensures CutToSlash(o + x) == o
    decreases |x|
  {
    if x == "" {
      assert o + x == o;
    } else {
      var y := x[..|x| - 1];
      assert (o + x)[..|o + x| - 1] == o + y;
      CutJoin(o, y);
    }
  }

  /** A place's text: "/" or "//" alone, or empty, or ending in a name. */
  lemma {:induction false} RenderEnd(d: Dir)
    requires Named(d)
    ensures var o := Render(d);
            && (d.names == [] && d.base.Root? ==> o == "/") && (d.names == [] && d.base.DoubleRoot? ==> o == "//")
            && (d.names == [] && d.base.Rel? ==> o == Ups(d.base.ups))
            && (d.names != [] ==> o != "" && o[|o| - 1] != '/')
  {
    hide Ups;
    if d.names != [] {
      var x := d.names[|d.names| - 1];
      assert IsName(x);
    }
  }

  lemma PopJoin(o: string, x: string)
    requires o == "" || o == "/" || o == "//" || o[|o| - 1] != '/'
    requires x != "" && forall i | 0 <= i < |x| :: x[i] != '/'
    ensures PopComp(Sep(o) + x) == o
  {
    hide CutToSlash;
    CutJoin(Sep(o), x);
    if o != "" && o[|o| - 1] != '/' {
      assert (o + "/")[..|o|] == o;
    }
  }

  /** ".." below a name drops that name; at "/" and "//" it changes nothing. */
  lemma RenderPop(d: Dir)
    requires Named(d) && !(d.names == [] && d.base.Rel?)
    ensures PopComp(Render(d)) == Render(if d.names == [] then d else Parent(d))
  {
    hide PopComp, Ups;
    if d.names == [] {
      RenderEnd(d);
      PopRoots();
    } else {
      var x := d.names[|d.names| - 1];
      assert IsName(x);
      RenderEnd(Parent(d));
      UpsEnd(d.base);
      PopJoin(Render(Parent(d)), x);
    }
  }

  lemma UpsEnd(b: Base)
    ensures b.Rel? ==> Ups(b.ups) == "" || Ups(b.ups)[|Ups(b.ups)| - 1] != '/'
  {
  }

  lemma PopRoots()
    ensures PopComp("/") == "/" && PopComp("//") == "//"
  {
  }

  /** Length of the leading ".." part of a path text tells whether there are names behind it. */
  lemma {:induction false} RenderLen(d: Dir)
    requires Named(d)
    ensures d.base.Rel? ==> (|Render(d)| <= 3 * d.base.ups <==> d.names == [])
    ensures !d.base.Rel? ==> |Render(d)| > 0 && Render(d)[0] == '/'
    ensures d.base.Rel? && Render(d) != "" ==> Render(d)[0] != '/'
    decreases |d.names|
  {
    hide Ups, Sep;
    if d.names == [] {
      UpsLen(d.base);
    } else {
      var x := d.names[|d.names| - 1];
      assert IsName(x);
      RenderLen(Parent(d));
      RenderEnd(Parent(d));
      UpsLen(d.base);
      SepLen(Render(Parent(d)), x);
    }
  }

  lemma UpsLen(b: Base)
    ensures b.Rel? && b.ups > 0 ==> |Ups(b.ups)| == 3 * b.ups - 1 && Ups(b.ups)[0] != '/'
                                     && Ups(b.ups)[|Ups(b.ups)| - 1] != '/'
    ensures b.Rel? && b.ups == 0 ==> Ups(b.ups) == ""
  {
  }

  lemma SepLen(o: string, x: string)
    requires x != "" && x[0] != '/'
    ensures |Sep(o) + x| == |o| + |x| + (if o != "" && o[|o| - 1] != '/' then 1 else 0)
    ensures (Sep(o) + x)[0] == if o == "" then x[0] else o[0]
  {
  }

  /** One more leading "..". */
  lemma RenderUp(d: Dir)
    requires d.names == [] && d.base.Rel?
    ensures Render(Dir(Rel(d.base.ups + 1), [])) == Sep(Render(d)) + ".."
  {
  }
}
