// The search in place: one buffer, the list from an offset on, each path appended before what it
// needs is looked for.
module PreloadBuffer {
  import opened Limits
  import opened CStrings
  import opened PreloadList
  import opened PreloadSearch

  /** The texts that are asked for are C strings. */
  ghost predicate TextEnv(env: Env) {
    && (forall n | env.access(n).Some? :: NoNul(env.access(n).value))
    && (forall p | env.needed(p).Some? :: NoNul(env.needed(p).value))
  }

  /** strtok_r over a list: the next token of what is left of it. */
  method NextToken(rest: string) returns (more: bool, token: string, left: string)
    ensures more == (Tokens(rest) != [])
    ensures more ==> Tokens(rest) == [token] + Tokens(left) && |left| < |rest| && token != ""
  {
    left := rest;
    while left != "" && left[0] == ':'
      invariant Tokens(left) == Tokens(rest) && |left| <= |rest|
      decreases |left|
    {
      TokensStep(left);
      left := left[1..];
    }
    TokensStep(left);
    if left == "" {
      return false, "", left;
    }
    var n := 0;
    while n < |left| && left[n] != ':'
      invariant 0 <= n <= |left| && TokenLen(left) == n + TokenLen(left[n..])
    {
      assert left[n..][1..] == left[n + 1..];
      n := n + 1;
    }
    more, token, left := true, left[..n], left[n..];
  }

  class PreloadBuf {
    const env: Env
    const buf: array<char>
    const offset: nat

    constructor (env: Env, buf: array<char>, offset: nat)
      ensures this.env == env && this.buf == buf && this.offset == offset
    {
      this.env, this.buf, this.offset := env, buf, offset;
    }

    ghost function Cap(): int {
      buf.Length - offset
    }

    /** The list in the buffer. */
    ghost predicate Lists(t: string)
      reads buf
    {
      && offset + |t| < buf.Length && buf[offset..offset + |t|] == t && buf[offset + |t|] == NUL && NoNul(t)
    }

    /** The length of the list, up to a limit. */
    method ListLen(limit: nat, ghost t: string) returns (n: nat)
      requires Lists(t)
      ensures n == if |t| < limit then |t| else limit
    {
      n := 0;
      while n < limit && buf[offset + n] != NUL
        invariant n <= |t| && n <= limit
      {
        assert n < |t|;
        n := n + 1;
      }
      assert n < |t| ==> buf[offset + n] == buf[offset..offset + |t|][n];
    }

    /** Append a path, a colon before it where needed, if there is room. */
    method PathStrncat(src: string, ghost t: string) returns (ok: bool)
      requires Lists(t) && NoNul(src) && src != ""
      modifies buf
      ensures ok == Fits(t, src, Cap())
      ensures Lists(if ok then Joined(t, src) else t)
      ensures buf[..offset] == old(buf[..offset])
    {
      var end := ListLen(buf.Length, t);
      var len := |src|;
      if end > 0 {
        len := len + 1;
      }
      if len + end + 1 > buf.Length - offset {
        return false;
      }
      ok := true;
      if end > 0 {
        buf[offset + end] := ':';
        assert buf[offset..offset + end + 1] == t + ":";
        end := end + 1;
      }
      Copy(src, end);
    }

    /** Write a text and a NUL behind the first `end` characters of the list. */
    method Copy(src: string, end: nat)
      requires offset + end + |src| < buf.Length && NoNul(buf[offset..offset + end] + src)
      modifies buf
      ensures Lists(old(buf[offset..offset + end]) + src) && buf[..offset] == old(buf[..offset])
    {
      ghost var front := buf[..offset + end];
      assert front[offset..] == buf[offset..offset + end];
      var i := 0;
      while i < |src|
        invariant 0 <= i <= |src| && buf[..offset + end] == front
        invariant buf[offset + end..offset + end + i] == src[..i]
      {
        buf[offset + end + i] := src[i];
        i := i + 1;
      }
      buf[offset + end + |src|] := NUL;
      assert buf[..offset + end] == front && buf[..offset] == front[..offset];
      assert buf[offset..offset + end] == front[offset..];
      assert buf[offset..offset + end + |src|] == buf[offset..offset + end] + buf[offset + end..offset + end + |src|];
    }

    /** Whether a path is one of the tokens of the list, as far as the list is looked through. */
    method IsInPath(pathname: string, ghost t: string) returns (found: bool)
      requires Lists(t)
      ensures found == InList(pathname, t)
    {
      hide Tokens;
      var n := ListLen(PATH_MAX, t);
      var rest := buf[offset..offset + n];
      assert rest == Head(t) by {
        assert buf[offset..offset + n] == buf[offset..offset + |t|][..n];
        assert t[..|t|] == t;
      }
      ghost var all := Tokens(rest);
      ghost var seen: seq<string> := [];
      assert [] + all == all;
      var more, token, left := NextToken(rest);
      while more
        invariant more == (Tokens(rest) != []) && (more ==> Tokens(rest) == [token] + Tokens(left) && |left| < |rest|)
        invariant all == seen + Tokens(rest) && pathname !in seen
        decreases |rest|
      {
        if token == pathname {
          assert all[|seen|] == pathname;
          return true;
        }
        assert seen + ([token] + Tokens(left)) == (seen + [token]) + Tokens(left);
        seen := seen + [token];
        rest := left;
        more, token, left := NextToken(rest);
      }
      assert all == seen;
      return false;
    }

    /** One needed name. */
    method NeededCallback(needed: string, ghost t: string) returns (ok: bool, ghost t': string)
      requires Pathed(env) && TextEnv(env) && Lists(t) && needed != ""
      modifies buf
      ensures Needs(env, Cap(), t, [needed]) == Found(ok, t') && Lists(t')
      decreases Cap() - |t|, 1, 0
    {
      hide Tokens, InList, Lists;
      ListsRoom(t);
      NeedsOne(env, Cap(), t, needed);
      if needed[0] == '/' {
        return true, t;
      }
      match env.access(needed)
      case None => return false, t;
      case Some(path) =>
        if !env.isLib(path) {
          return true, t;
        }
        var found := IsInPath(path, t);
        if found {
          return true, t;
        }
        ok, t' := PreloadNeeded(path, t);
    }

    lemma ListsRoom(t: string)
      requires Lists(t)
      ensures |t| < Cap()
    {
    }

    /** A library: into the list first, then everything it needs. */
    method PreloadNeeded(path: string, ghost t: string) returns (ok: bool, ghost t': string)
      requires Pathed(env) && TextEnv(env) && Lists(t) && IsPath(path) && NoNul(path)
      modifies buf
      ensures |t| < Cap() && Library(env, Cap(), t, path) == Found(ok, t') && Lists(t')
      decreases Cap() - |t|, 0, 0
    {
      hide Tokens, InList, Lists, Needs, NoNul;
      ListsRoom(t);
      JoinedTokens(t, path);
      var fits := PathStrncat(path, t);
      if !fits {
        return false, t;
      }
      t' := Joined(t, path);
      match env.needed(path)
      case None => return false, t';
      case Some(names) => ok, t' := PathIterate(names, t');
    }

    /** Every name of a list of names in turn, as long as it goes well. */
    method PathIterate(names: string, ghost t: string) returns (ok: bool, ghost t': string)
      requires Pathed(env) && TextEnv(env) && Lists(t)
      modifies buf
      ensures |t| < Cap() && Needs(env, Cap(), t, Tokens(Head(names))) == Found(ok, t') && Lists(t')
      decreases Cap() - |t|, 2, 0
    {
      hide Tokens, InList, Lists, Needs;
      ListsRoom(t);
      ok, t' := true, t;
      var rest := if |names| <= PATH_MAX then names else names[..PATH_MAX];
      ghost var cap := Cap();
      ghost var all := Needs(env, cap, t, Tokens(rest));
      var more, token, left := NextToken(rest);
      while more
        invariant Lists(t') && |t| <= |t'| < cap
        invariant more == (Tokens(rest) != []) &&
                  (more ==> Tokens(rest) == [token] + Tokens(left) && |left| < |rest| && token != "")
        invariant all == Needs(env, cap, t', Tokens(rest))
        decreases |rest|
      {
        NeedsCons(env, cap, t', token, Tokens(left));
        ok, t' := NeededCallback(token, t');
        ListsRoom(t');
        if !ok {
          return;
        }
        rest := left;
        more, token, left := NextToken(rest);
      }
      NeedsNil(env, cap, t');
      ok := true;
    }

    /** The search for a program. */
    method PreloadExecutable(path: string, ghost t: string) returns (ok: bool, ghost t': string)
      requires Pathed(env) && TextEnv(env) && Lists(t)
      modifies buf
      ensures |t| < Cap() && Executable(env, Cap(), t, path) == Found(ok, t') && Lists(t')
    {
      hide Lists, Needs, Tokens;
      ListsRoom(t);
      match env.needed(path)
      case None => return false, t;
      case Some(names) => ok, t' := PathIterate(names, t);
    }
  }

  lemma NeedsNil(env: Env, cap: nat, t: string)
    requires Pathed(env) && |t| < cap
    ensures Needs(env, cap, t, []) == Found(true, t)
  {
  }

  lemma NeedsOne(env: Env, cap: nat, t: string, name: string)
    requires Pathed(env) && |t| < cap && name != ""
    ensures name[0] == '/' ==> Needs(env, cap, t, [name]) == Found(true, t)
    ensures name[0] != '/' && env.access(name).None? ==> Needs(env, cap, t, [name]) == Found(false, t)
    ensures name[0] != '/' && env.access(name).Some? ==>
              var p := env.access(name).value;
              IsPath(p) && Needs(env, cap, t, [name]) ==
                if !env.isLib(p) || InList(p, t) then Found(true, t) else Library(env, cap, t, p)
  {
    hide InList, Library, IsPath;
    assert [name][1..] == [];
    NeedsNil(env, cap, t);
    if name[0] != '/' && env.access(name).Some? {
      PathOf(env, name);
      var r := Library(env, cap, t, env.access(name).value);
      NeedsNil(env, cap, r.list);
    }
  }

  lemma PathOf(env: Env, name: string)
    requires Pathed(env) && env.access(name).Some?
    ensures IsPath(env.access(name).value)
  {
  }

  /** The names of a list one after the other. */
  lemma NeedsCons(env: Env, cap: nat, t: string, name: string, more: seq<string>)
    requires Pathed(env) && |t| < cap && name != ""
    ensures var r := Needs(env, cap, t, [name]);
            Needs(env, cap, t, [name] + more) == if r.ok then Needs(env, cap, r.list, more) else r
  {
    hide InList, Library, IsPath, Pathed;
    NeedsOne(env, cap, t, name);
    assert ([name] + more)[1..] == more;
  }
}
