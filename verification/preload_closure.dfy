// What a successful search leaves in the list: the closure of what was needed, without duplicates.
module PreloadClosure {
  import opened Limits
  import opened PreloadList
  import opened PreloadSearch

  predicate Distinct(ts: seq<string>) {
    forall i, j | 0 <= i < j < |ts| :: ts[i] != ts[j]
  }

  /** Every name that is not absolute was found, and if there is a library it is in the list. */
  predicate Has(env: Env, name: string, list: string) {
    Absolute(name)
    || (env.access(name).Some? && (env.isLib(env.access(name).value) ==> env.access(name).value in Tokens(list)))
  }

  predicate Reached(env: Env, names: seq<string>, list: string) {
    forall i | 0 <= i < |names| :: Has(env, names[i], list)
  }

  /** Everything the file needs is in the list. */
  predicate Closed(env: Env, path: string, list: string) {
    env.needed(path).Some? && Reached(env, Tokens(Head(env.needed(path).value)), list)
  }

  /** Every path put into the list after list0 has all it needs in it. */
  predicate NewClosed(env: Env, list0: string, list: string) {
    forall t | t in Tokens(list) :: t in Tokens(list0) || Closed(env, t, list)
  }

  /** Lists only grow at their ends. */
  predicate Grows(list0: string, list: string) {
    Tokens(list0) <= Tokens(list)
  }

  lemma GrowsKeeps(env: Env, names: seq<string>, t: string, list0: string, list: string)
    requires Grows(list0, list)
    ensures Reached(env, names, list0) ==> Reached(env, names, list)
    ensures Closed(env, t, list0) ==> Closed(env, t, list)
    ensures t in Tokens(list0) ==> t in Tokens(list)
  {
    hide Tokens, Head;
    forall x | x in Tokens(list0)
      ensures x in Tokens(list)
    {
      var i :| 0 <= i < |Tokens(list0)| && Tokens(list0)[i] == x;
      assert Tokens(list)[i] == x;
    }
  }

  lemma JoinedGrows(list: string, path: string)
    requires IsPath(path)
    ensures Grows(list, Joined(list, path))
  {
    hide Tokens;
    JoinedTokens(list, path);
  }

  lemma {:induction false} NeedsGrows(env: Env, cap: nat, list: string, names: seq<string>)
    requires Pathed(env) && |list| < cap
    ensures Grows(list, Needs(env, cap, list, names).list)
    decreases cap - |list|, 1, |names|
  {
    hide Tokens, Library, InList, Pathed, Target, Lost;
    if names != [] && !Lost(env, names[0]) {
      var t := Target(env, names[0]);
      NeedsGrows(env, cap, list, names[1..]);
      if t.Some? && !InList(t.value, list) {
        TargetPath(env, names[0]);
        var r := Library(env, cap, list, t.value);
        LibraryGrows(env, cap, list, t.value);
        if r.ok {
          LibraryLonger(env, cap, list, t.value);
          NeedsGrows(env, cap, r.list, names[1..]);
        }
      }
    }
  }

  lemma TargetPath(env: Env, name: string)
    requires Pathed(env) && Target(env, name).Some?
    ensures IsPath(Target(env, name).value)
  {
  }

  lemma LibraryLonger(env: Env, cap: nat, list: string, path: string)
    requires Pathed(env) && |list| < cap && IsPath(path) && Library(env, cap, list, path).ok
    ensures |list| < |Library(env, cap, list, path).list|
  {
    hide Needs, Tokens;
    JoinedTokens(list, path);
  }

  lemma {:induction false} LibraryGrows(env: Env, cap: nat, list: string, path: string)
    requires Pathed(env) && |list| < cap && IsPath(path)
    ensures Grows(list, Library(env, cap, list, path).list)
    decreases cap - |list|, 0, 0
  {
    hide Tokens, Needs, Pathed;
    if Fits(list, path, cap) {
      JoinedTokens(list, path);
      JoinedGrows(list, path);
      if env.needed(path).Some? {
        NeedsGrows(env, cap, Joined(list, path), Tokens(Head(env.needed(path).value)));
      }
    }
  }

  // ---- no duplicates

  lemma {:induction false} NeedsDistinct(env: Env, cap: nat, list: string, names: seq<string>)
    requires Pathed(env) && |list| < cap && Distinct(Tokens(list))
    requires |Needs(env, cap, list, names).list| <= PATH_MAX
    ensures Distinct(Tokens(Needs(env, cap, list, names).list))
    decreases cap - |list|, 1, |names|
  {
    hide Tokens, Library, Pathed, Target, Lost, Distinct;
    if names != [] && !Lost(env, names[0]) {
      var t := Target(env, names[0]);
      if t.Some? && !InList(t.value, list) {
        TargetPath(env, names[0]);
        var r := Library(env, cap, list, t.value);
        LibraryDistinct(env, cap, list, t.value);
        if r.ok {
          LibraryLonger(env, cap, list, t.value);
          NeedsDistinct(env, cap, r.list, names[1..]);
        }
      } else {
        NeedsDistinct(env, cap, list, names[1..]);
      }
    }
  }

  lemma {:induction false} LibraryDistinct(env: Env, cap: nat, list: string, path: string)
    requires Pathed(env) && |list| < cap && IsPath(path) && |Library(env, cap, list, path).list| <= PATH_MAX
    requires Distinct(Tokens(list)) && path !in Tokens(list)
    ensures Distinct(Tokens(Library(env, cap, list, path).list))
    decreases cap - |list|, 0, 0
  {
    hide Tokens, Needs, Pathed;
    if Fits(list, path, cap) {
      JoinedTokens(list, path);
      if env.needed(path).Some? {
        NeedsDistinct(env, cap, Joined(list, path), Tokens(Head(env.needed(path).value)));
      }
    }
  }

  // ---- closed under "needed"

  lemma {:induction false} NeedsClosed(env: Env, cap: nat, list: string, names: seq<string>)
    requires Pathed(env) && |list| < cap && Needs(env, cap, list, names).ok
    requires |Needs(env, cap, list, names).list| <= PATH_MAX
    ensures Reached(env, names, Needs(env, cap, list, names).list)
    ensures NewClosed(env, list, Needs(env, cap, list, names).list)
    decreases cap - |list|, 1, |names|
  {
    hide Tokens, Library, Pathed, Target, Closed, Reached, NewClosed, Grows;
    var out := Needs(env, cap, list, names).list;
    if names == [] {
      NothingNew(env, list);
    } else {
      var t := Target(env, names[0]);
      if t.None? {
        NeedsClosed(env, cap, list, names[1..]);
        ReachedMore(env, names, out);
      } else if InList(t.value, list) {
        NeedsClosed(env, cap, list, names[1..]);
        NeedsGrows(env, cap, list, names[1..]);
        GrowsKeeps(env, names, t.value, list, out);
        ReachedMore(env, names, out);
      } else {
        TargetPath(env, names[0]);
        var mid := Library(env, cap, list, t.value).list;
        LibraryLonger(env, cap, list, t.value);
        LibraryClosed(env, cap, list, t.value);
        NeedsClosed(env, cap, mid, names[1..]);
        NeedsGrows(env, cap, mid, names[1..]);
        GrowsKeeps(env, names, t.value, mid, out);
        ReachedMore(env, names, out);
        NewClosedJoin(env, list, mid, out);
      }
    }
  }

  lemma NothingNew(env: Env, list: string)
    ensures Reached(env, [], list) && NewClosed(env, list, list)
  {
    hide Tokens, Closed;
  }

  lemma ReachedMore(env: Env, names: seq<string>, list: string)
    requires names != [] && Reached(env, names[1..], list) && !Lost(env, names[0])
    requires Target(env, names[0]).Some? ==> Target(env, names[0]).value in Tokens(list)
    ensures Reached(env, names, list)
  {
    hide Tokens;
    assert Has(env, names[0], list);
    hide Has;
    forall i | 0 <= i < |names|
      ensures Has(env, names[i], list)
    {
      if i > 0 {
        assert names[1..][i - 1] == names[i];
      }
    }
  }

  lemma NewClosedJoin(env: Env, list: string, mid: string, out: string)
    requires NewClosed(env, list, mid) && NewClosed(env, mid, out) && Grows(mid, out)
    ensures NewClosed(env, list, out)
  {
    hide Tokens, Closed, Grows;
    forall t | t in Tokens(out) && t in Tokens(mid)
      ensures t in Tokens(list) || Closed(env, t, out)
    {
      GrowsKeeps(env, [], t, mid, out);
    }
  }

  lemma {:induction false} LibraryClosed(env: Env, cap: nat, list: string, path: string)
    requires Pathed(env) && |list| < cap && IsPath(path) && Library(env, cap, list, path).ok
    requires |Library(env, cap, list, path).list| <= PATH_MAX
    ensures path in Tokens(Library(env, cap, list, path).list)
    ensures NewClosed(env, list, Library(env, cap, list, path).list)
    decreases cap - |list|, 0, 0
  {
    hide Tokens, Needs, Pathed, Closed, Reached, NewClosed, Grows, Joined;
    var out := Library(env, cap, list, path).list;
    var mid := Joined(list, path);
    var names := Tokens(Head(env.needed(path).value));
    JoinedTokens(list, path);
    NeedsClosed(env, cap, mid, names);
    NeedsGrows(env, cap, mid, names);
    assert path in Tokens(mid) by {
      assert Tokens(mid)[|Tokens(list)|] == path;
    }
    GrowsKeeps(env, names, path, mid, out);
    OneMoreClosed(env, list, path, mid, out);
  }

  lemma OneMoreClosed(env: Env, list: string, path: string, mid: string, out: string)
    requires Tokens(mid) == Tokens(list) + [path] && NewClosed(env, mid, out)
    requires env.needed(path).Some? && Reached(env, Tokens(Head(env.needed(path).value)), out)
    ensures NewClosed(env, list, out)
  {
    hide Tokens, Reached;
  }

  /** In a buffer of any size: if the search for a program goes through, and the list it leaves is no
      longer than a scan looks, the list has no duplicates, holds everything the program needs, and
      everything put into it has what it needs in it, cycles or not. */
  lemma SearchCloses(env: Env, cap: nat, list: string, path: string)
    requires Pathed(env) && |list| < cap && Distinct(Tokens(list))
    ensures var r := Executable(env, cap, list, path);
            r.ok && |r.list| <= PATH_MAX ==>
              Distinct(Tokens(r.list)) && Closed(env, path, r.list) && NewClosed(env, list, r.list) &&
              Grows(list, r.list)
  {
    hide Tokens, Needs, Pathed, NewClosed, Grows, Distinct, Reached;
    if env.needed(path).Some? && |Executable(env, cap, list, path).list| <= PATH_MAX {
      var names := Tokens(Head(env.needed(path).value));
      NeedsDistinct(env, cap, list, names);
      NeedsGrows(env, cap, list, names);
      if Needs(env, cap, list, names).ok {
        NeedsClosed(env, cap, list, names);
      }
    }
  }

  // ---- nothing but what is needed

  function NeededBy(env: Env, path: string): seq<string> {
    if env.needed(path).Some? then Tokens(Head(env.needed(path).value)) else []
  }

  predicate LedBy(env: Env, names: seq<string>, t: string) {
    exists i | 0 <= i < |names| :: Leads(env, names[i], t)
  }

  /** The k-th token is needed by an earlier one from base on. */
  predicate FromEarlier(env: Env, base: nat, ts: seq<string>, k: nat)
    requires k < |ts|
  {
    exists j | base <= j < k :: LedBy(env, NeededBy(env, ts[j]), ts[k])
  }

  /** Every token from base on is one the names lead to, or is needed by an earlier one. */
  predicate AllLed(env: Env, names: seq<string>, base: nat, ts: seq<string>) {
    forall k | base <= k < |ts| :: LedBy(env, names, ts[k]) || FromEarlier(env, base, ts, k)
  }

  lemma LedMore(env: Env, names: seq<string>, base: nat, ts: seq<string>)
    requires names != [] && AllLed(env, names[1..], base, ts)
    ensures AllLed(env, names, base, ts)
  {
    hide NeededBy, FromEarlier, Target;
    forall k | base <= k < |ts| && LedBy(env, names[1..], ts[k])
      ensures LedBy(env, names, ts[k])
    {
      var i :| 0 <= i < |names[1..]| && Leads(env, names[1..][i], ts[k]);
      assert Leads(env, names[i + 1], ts[k]);
    }
  }

  lemma LedSplit(env: Env, names: seq<string>, base: nat, mid: seq<string>, ts: seq<string>)
    requires AllLed(env, names, base, mid) && AllLed(env, names, |mid|, ts) && mid <= ts && base <= |mid|
    ensures AllLed(env, names, base, ts)
  {
    hide NeededBy, LedBy;
    forall k | base <= k < |ts|
      ensures LedBy(env, names, ts[k]) || FromEarlier(env, base, ts, k)
    {
      if k < |mid| {
        assert mid[k] == ts[k];
        if FromEarlier(env, base, mid, k) {
          var j :| base <= j < k && LedBy(env, NeededBy(env, mid[j]), mid[k]);
          assert mid[j] == ts[j];
        }
      }
    }
  }

  /** What a library brings: itself, then what it needs. */
  lemma LedBehind(env: Env, names: seq<string>, base: nat, path: string, ts: seq<string>)
    requires base < |ts| && ts[base] == path && LedBy(env, names, path)
    requires AllLed(env, NeededBy(env, path), base + 1, ts)
    ensures AllLed(env, names, base, ts)
  {
    hide NeededBy, LedBy;
    forall k | base < k < |ts|
      ensures FromEarlier(env, base, ts, k)
    {
      if LedBy(env, NeededBy(env, path), ts[k]) {
        assert LedBy(env, NeededBy(env, ts[base]), ts[k]);
      } else {
        assert FromEarlier(env, base + 1, ts, k);
      }
    }
  }

  lemma {:induction false} NeedsLed(env: Env, cap: nat, list: string, names: seq<string>)
    requires Pathed(env) && |list| < cap
    ensures AllLed(env, names, |Tokens(list)|, Tokens(Needs(env, cap, list, names).list))
    decreases cap - |list|, 1, |names|
  {
    hide Tokens, Library, InList, Pathed, Target, Lost, AllLed, Grows, NeededBy;
    var base := |Tokens(list)|;
    if names == [] || Lost(env, names[0]) {
      LedNone(env, names, Tokens(list));
    } else {
      var t := Target(env, names[0]);
      if t.None? || InList(t.value, list) {
        NeedsLed(env, cap, list, names[1..]);
        LedMore(env, names, base, Tokens(Needs(env, cap, list, names[1..]).list));
      } else {
        TargetPath(env, names[0]);
        assert LedBy(env, names, t.value);
        LibraryLed(env, cap, list, names, t.value);
        var r := Library(env, cap, list, t.value);
        if r.ok {
          LibraryLonger(env, cap, list, t.value);
          LibraryGrows(env, cap, list, t.value);
          NeedsLed(env, cap, r.list, names[1..]);
          NeedsGrows(env, cap, r.list, names[1..]);
          var out := Needs(env, cap, r.list, names[1..]).list;
          LedMore(env, names, |Tokens(r.list)|, Tokens(out));
          GrowsLen(list, r.list, out);
          LedSplit(env, names, base, Tokens(r.list), Tokens(out));
        }
      }
    }
  }

  lemma GrowsLen(list: string, mid: string, out: string)
    requires Grows(list, mid) && Grows(mid, out)
    ensures |Tokens(list)| <= |Tokens(mid)| && Tokens(mid) <= Tokens(out)
  {
    hide Tokens;
  }

  lemma LedNone(env: Env, names: seq<string>, ts: seq<string>)
    ensures AllLed(env, names, |ts|, ts)
  {
  }

  lemma {:induction false} LibraryLed(env: Env, cap: nat, list: string, names: seq<string>, path: string)
    requires Pathed(env) && |list| < cap && IsPath(path) && LedBy(env, names, path)
    ensures AllLed(env, names, |Tokens(list)|, Tokens(Library(env, cap, list, path).list))
    decreases cap - |list|, 0, 0
  {
    hide Tokens, Needs, Pathed, LedBy, AllLed, Target;
    var base := |Tokens(list)|;
    LedNone(env, names, Tokens(list));
    if Fits(list, path, cap) {
      var mid := Joined(list, path);
      JoinedTokens(list, path);
      LedNone(env, NeededBy(env, path), Tokens(mid));
      LedBehind(env, names, base, path, Tokens(mid));
      if env.needed(path).Some? {
        var more := NeededBy(env, path);
        NeedsLed(env, cap, mid, more);
        NeedsGrows(env, cap, mid, more);
        var out := Needs(env, cap, mid, more).list;
        assert Tokens(mid)[base] == path;
        LedBehind(env, names, base, path, Tokens(out));
      }
    }
  }

  /** Whether or not the search goes through, what it puts into the list is needed by the program, or
      by something put there before it. */
  lemma SearchNeeds(env: Env, cap: nat, list: string, path: string)
    requires Pathed(env) && |list| < cap
    ensures AllLed(env, NeededBy(env, path), |Tokens(list)|, Tokens(Executable(env, cap, list, path).list))
  {
    hide Tokens, Needs, Pathed, LedBy, AllLed, Target;
    LedNone(env, NeededBy(env, path), Tokens(list));
    if env.needed(path).Some? {
      NeedsLed(env, cap, list, NeededBy(env, path));
    }
  }
}
