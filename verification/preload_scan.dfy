// How much of the list is looked through: PATH_MAX characters, and what that means for longer ones.
module PreloadScan {
  import opened Limits
  import opened Wrappers
  import opened PreloadList
  import opened PreloadSearch
  import opened PreloadClosure

  /** Every search that goes through in a buffer of cap characters, and leaves a list of no more than
      n, leaves what it should. */
  ghost predicate AlwaysCloses(cap: nat, n: nat) {
    forall env: Env, list, path
      | Pathed(env) && |list| < cap && Distinct(Tokens(list)) && |Executable(env, cap, list, path).list| <= n ::
      Closes(env, cap, list, path)
  }

  ghost predicate Closes(env: Env, cap: nat, list: string, path: string)
    requires Pathed(env) && |list| < cap
  {
    var r := Executable(env, cap, list, path);
    r.ok ==> Distinct(Tokens(r.list)) && Closed(env, path, r.list) && NewClosed(env, list, r.list)
  }

  /** A path of n characters. */
  function Long(n: nat): (r: string)
    ensures |r| == n && forall i | 0 <= i < n :: r[i] == 'p'
  {
    if n == 0 then "" else Long(n - 1) + "p"
  }

  const LONG: string := Long(PATH_MAX - 2)

  function IsFile(path: string): bool {
    true
  }

  function Where(name: string): Option<string> {
    if name == "x" then Some(LONG) else if name == "y" then Some("ab") else if name == "z" then Some("a") else None
  }

  function Wants(path: string): Option<string> {
    if path == "exe" then Some("x:y:z") else Some("")
  }

  /** Three libraries, the second of which ends just behind what is looked through. */
  const CUT: Env := Env(Wants, Where, IsFile)

  lemma CutPathed()
    ensures Pathed(CUT) && IsPath(LONG) && IsPath("ab") && IsPath("a")
  {
  }

  lemma WantedNames()
    ensures Tokens("x:y:z") == ["x", "y", "z"] && Tokens("") == []
  {
    hide Tokens;
    TokenOfPath("x");
    TokenOfPath("y");
    TokenOfPath("z");
    TokensStep("");
    assert "x:y:z" == "x" + ":" + ("y" + ":" + "z");
    TokensJoin("y", "z");
    TokensJoin("x", "y" + ":" + "z");
  }

  /** Behind LONG, only the first character of the second path is seen. */
  lemma CutList()
    ensures Joined("", LONG) == LONG && Joined(LONG, "ab") == LONG + ":" + "ab"
    ensures Tokens(LONG) == [LONG] && Tokens(LONG + ":" + "ab") == [LONG, "ab"]
    ensures Head(LONG + ":" + "ab") == LONG + ":" + "a" && Tokens(LONG + ":" + "a") == [LONG, "a"]
  {
    hide Tokens;
    CutPathed();
    TokenOfPath(LONG);
    TokenOfPath("ab");
    TokenOfPath("a");
    TokensJoin(LONG, "ab");
    TokensJoin(LONG, "a");
    assert "" + LONG == LONG;
  }

  lemma LibraryAlone(cap: nat, list: string, path: string)
    requires |list| < cap && IsPath(path) && path != "exe" && Fits(list, path, cap) && |Joined(list, path)| < cap
    ensures Pathed(CUT) && Library(CUT, cap, list, path) == Found(true, Joined(list, path))
  {
    hide Tokens, IsPath;
    CutPathed();
    WantedNames();
  }

  lemma NeedsStep(cap: nat, list: string, name: string, more: seq<string>, path: string)
    requires Pathed(CUT) && |list| < cap && name != "" && name[0] != '/' && Where(name) == Some(path) && path != "exe"
    ensures InList(path, list) ==> Needs(CUT, cap, list, [name] + more) == Needs(CUT, cap, list, more)
    ensures !InList(path, list) && Fits(list, path, cap) && |Joined(list, path)| < cap ==>
              Needs(CUT, cap, list, [name] + more) == Needs(CUT, cap, Joined(list, path), more)
  {
    hide Tokens, IsPath, InList;
    assert ([name] + more)[1..] == more;
    assert Target(CUT, name) == Some(path);
    TargetPath(CUT, name);
    if Fits(list, path, cap) && |Joined(list, path)| < cap {
      LibraryAlone(cap, list, path);
    }
  }

  lemma CutSearch(cap: nat)
    requires cap > PATH_MAX + 1
    ensures Pathed(CUT) && Executable(CUT, cap, "", "exe") == Found(true, LONG + ":" + "ab")
  {
    hide Tokens, IsPath, Needs;
    CutPathed();
    WantedNames();
    CutList();
    NeedsStep(cap, "", "x", ["y", "z"], LONG);
    NeedsStep(cap, LONG, "y", ["z"], "ab");
    NeedsStep(cap, LONG + ":" + "ab", "z", [], "a");
    assert ["x"] + ["y", "z"] == ["x", "y", "z"] && ["y"] + ["z"] == ["y", "z"] && ["z"] + [] == ["z"];
    NeedsNone(cap, LONG + ":" + "ab");
  }

  lemma NeedsNone(cap: nat, list: string)
    requires Pathed(CUT) && |list| < cap
    ensures Needs(CUT, cap, list, []) == Found(true, list)
  {
  }

  /** Lists of at most n characters come out without duplicates and closed under "needed" for every
      program exactly when a scan sees the whole of each: n is no more than it looks through, or the
      buffer has no room for more. */
  lemma ClosesIff(cap: nat, n: nat)
    ensures AlwaysCloses(cap, n) <==> n <= PATH_MAX || cap <= PATH_MAX + 1
  {
    hide Tokens, Executable, Distinct, Closed, NewClosed, Pathed;
    if n <= PATH_MAX || cap <= PATH_MAX + 1 {
      forall env: Env, list, path
        | Pathed(env) && |list| < cap && Distinct(Tokens(list)) && |Executable(env, cap, list, path).list| <= n
        ensures Closes(env, cap, list, path)
      {
        SearchCloses(env, cap, list, path);
      }
    } else {
      CutSearch(cap);
      CutOpen(cap);
      assert |Executable(CUT, cap, "", "exe").list| == PATH_MAX + 1;
    }
  }

  lemma CutOpen(cap: nat)
    requires cap > PATH_MAX + 1 && Pathed(CUT) && Executable(CUT, cap, "", "exe") == Found(true, LONG + ":" + "ab")
    ensures !Closes(CUT, cap, "", "exe") && Distinct(Tokens(""))
  {
    hide Tokens, Executable, Needs;
    WantedNames();
    CutList();
    assert Target(CUT, "z") == Some("a");
    assert ["x", "y", "z"][2] == "z";
    assert Head("x:y:z") == "x:y:z";
  }
}
