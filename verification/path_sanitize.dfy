// Path texts edited in place: sanitizing, and stripping the root directory.
module PathSanitize {
  import opened CStrings
  import opened PathResolution

  /** Move the text two characters down. */
  method DropTwo(path: array<char>, ghost t: string, len: nat)
    requires Holds(path, t) && len == |t| >= 2
    modifies path
    ensures Holds(path, t[2..])
  {
    var s := 0;
    while path[s + 2] != NUL
      invariant 0 <= s <= len - 2 && path[..s] == t[2..s + 2] && path[s..len] == t[s..] && path[len] == NUL
      decreases len - s
    {
      assert path[s + 2] == path[s..len][2];
      path[s] := path[s + 2];
      s := s + 1;
    }
    path[len - 2] := NUL;
    assert path[..len - 2] == t[2..];
  }

  /** Cut n characters off the end. */
  method CutEnd(path: array<char>, ghost t: string, len: nat, n: nat)
    requires Holds(path, t) && len == |t| >= n
    modifies path
    ensures Holds(path, t[..|t| - n])
  {
    path[len - n] := NUL;
    assert path[..len - n] == t[..len - n];
    NoNulPrefix(t, len - n);
  }

  lemma SanitizeEmpty(t: string)
    ensures t == "" ==> Sanitize(t) == t
  {
  }

  lemma TrailingDotsStep(t: string)
    ensures StripTrailingDots(t) == if |t| > 2 && t[|t| - 2] == '/' && t[|t| - 1] == '.'
                                    then StripTrailingDots(t[..|t| - 2]) else t
  {
  }

  lemma TrailingSlashesStep(t: string)
    ensures StripTrailingSlashes(t) == if |t| > 1 && t[|t| - 1] == '/' then StripTrailingSlashes(t[..|t| - 1]) else t
  {
  }

  method SanitizeInPlace(path: array<char>, ghost t0: string)
    requires Holds(path, t0)
    modifies path
    ensures Holds(path, Sanitize(t0))
  {
    hide StripDots, StripTrailingDots, StripTrailingSlashes, NoNul;
    HoldsEmpty(path, t0);
    if path[0] == NUL {
      SanitizeEmpty(t0);
      return;
    }
    var len := Length(path, t0);
    ghost var t := t0;
    len := StripFront(path, t, len);
    t := StripDots(t);
    // Strip trailing /.
    while len > 2 && path[len - 2] == '/' && path[len - 1] == '.'
      invariant Holds(path, t) && len == |t| && StripTrailingDots(t) == StripTrailingDots(StripDots(t0))
    {
      TrailingDotsStep(t);
      CutEnd(path, t, len, 2);
      t := t[..|t| - 2];
      len := len - 2;
    }
    TrailingDotsStep(t);
    StripBack(path, t, len);
  }

  /** Strip leading "./". */
  method StripFront(path: array<char>, ghost t0: string, len0: nat) returns (len: nat)
    requires Holds(path, t0) && len0 == |t0|
    modifies path
    ensures Holds(path, StripDots(t0)) && len == |StripDots(t0)|
  {
    hide StripDots, NoNul;
    ghost var t := t0;
    len := len0;
    while len > 3 && path[0] == '.' && path[1] == '/' && path[2] != '/'
      invariant Holds(path, t) && len == |t| && StripDots(t) == StripDots(t0)
    {
      DotsStep(t);
      DropTwo(path, t, len);
      t := t[2..];
      len := len - 2;
    }
    DotsStep(t);
  }

  /** Strip trailing slashes. */
  method StripBack(path: array<char>, ghost t0: string, len0: nat)
    requires Holds(path, t0) && len0 == |t0|
    modifies path
    ensures Holds(path, StripTrailingSlashes(t0))
  {
    hide StripTrailingSlashes, NoNul;
    ghost var t := t0;
    var len := len0;
    while len > 1 && path[len - 1] == '/'
      invariant Holds(path, t) && len == |t| && StripTrailingSlashes(t) == StripTrailingSlashes(t0)
    {
      TrailingSlashesStep(t);
      CutEnd(path, t, len, 1);
      t := t[..|t| - 1];
      len := len - 1;
    }
    TrailingSlashesStep(t);
  }

  method Length(path: array<char>, ghost t: string) returns (len: nat)
    requires Holds(path, t)
    ensures len == |t|
  {
    len := 0;
    while path[len] != NUL
      invariant len <= |t|
      decreases |t| - len
    {
      len := len + 1;
    }
    HoldsAt(path, t, len);
  }
}
