// The search for the libraries a program needs, each put into a list once.
module PreloadSearch {
  import opened Wrappers
  import opened PreloadList

  /** What is asked about libraries: the names a file needs, as a list; where a name is found; and
      whether a file is a library. */
  datatype Env = Env(needed: string -> Option<string>, access: string -> Option<string>, isLib: string -> bool)

  /** Names are found at paths that can stand in a list. */
  ghost predicate Pathed(env: Env) {
    forall n | env.access(n).Some? :: IsPath(env.access(n).value)
  }

  /** A search that went through, or stopped, and the list it leaves. */
  datatype Found = Found(ok: bool, list: string)

  function InList(path: string, list: string): bool {
    path in Tokens(Head(list))
  }

  predicate Absolute(name: string) {
    "/" <= name
  }

  /** A needed name, not absolute, is found at a path where there is a library. */
  predicate Leads(env: Env, name: string, path: string) {
    !Absolute(name) && env.access(name) == Some(path) && env.isLib(path)
  }

  /** Where a needed name leads: nowhere for an absolute name and for what is no library. */
  function Target(env: Env, name: string): (r: Option<string>)
    ensures r.Some? ==> Leads(env, name, r.value)
    ensures r.None? ==> forall p :: !Leads(env, name, p)
  {
    if name != "" && name[0] == '/' then
      None
    else if env.access(name).Some? && env.isLib(env.access(name).value) then
      env.access(name)
    else
      None
  }

  predicate Lost(env: Env, name: string) {
    !(name != "" && name[0] == '/') && env.access(name).None?
  }

  /** Put what the names lead to into the list, with all it needs in turn. */
  function Needs(env: Env, cap: nat, list: string, names: seq<string>): (r: Found)
    requires Pathed(env) && |list| < cap
    ensures |list| <= |r.list| < cap
    decreases cap - |list|, 1, |names|
  {
    if names == [] then
      Found(true, list)
    else if Lost(env, names[0]) then
      Found(false, list)
    else
      match Target(env, names[0])
      case None => Needs(env, cap, list, names[1..])
      case Some(path) =>
        if InList(path, list) then
          Needs(env, cap, list, names[1..])
        else
          var r := Library(env, cap, list, path);
          if r.ok then Needs(env, cap, r.list, names[1..]) else r
  }

  /** Put a library into the list, then what it needs. */
  function Library(env: Env, cap: nat, list: string, path: string): (r: Found)
    requires Pathed(env) && |list| < cap && IsPath(path)
    ensures |list| <= |r.list| < cap
    decreases cap - |list|, 0, 0
  {
    if !Fits(list, path, cap) then
      Found(false, list)
    else
      match env.needed(path)
      case None => Found(false, Joined(list, path))
      case Some(names) => Needs(env, cap, Joined(list, path), Tokens(Head(names)))
  }

  /** The search for a program, which does not itself go into the list. */
  function Executable(env: Env, cap: nat, list: string, path: string): (r: Found)
    requires Pathed(env) && |list| < cap
    ensures |list| <= |r.list| < cap
  {
    match env.needed(path)
    case None => Found(false, list)
    case Some(names) => Needs(env, cap, list, Tokens(Head(names)))
  }
}
