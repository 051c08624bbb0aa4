// The environment in place: an array of pointers ended by NULL, and a record of the strings that were
// allocated for it.
module EnvArray {
  import opened Wrappers
  import opened EnvSpec

  /** A pointer to a string; 0 is NULL. */
  type Ptr = nat

  /** No string is recorded twice. */
  predicate Slots(alloced: seq<Ptr>) {
    forall i, j | 0 <= i < j < |alloced| && alloced[i] == alloced[j] :: alloced[i] == 0
  }

  predicate Owned(alloced: seq<Ptr>, p: Ptr) {
    p != 0 && p in alloced
  }

  /** Every recorded string is in the list, once, and nothing in the list has been freed. */
  ghost predicate Owns(list: seq<Ptr>, alloced: seq<Ptr>, freed: seq<Ptr>) {
    && Slots(alloced)
    && (forall p | Owned(alloced, p) :: multiset(list)[p] == 1)
    && (forall p | p in list :: p !in freed && p != 0)
    && (forall i, j | 0 <= i < j < |freed| :: freed[i] != freed[j])
  }

  /** What recording does: old is forgotten, and freed if it was recorded; new is recorded. */
  ghost predicate Recorded(alloced: seq<Ptr>, freed: seq<Ptr>, gone: Ptr, add: Ptr, alloced': seq<Ptr>,
                           freed': seq<Ptr>) {
    && Slots(alloced')
    && (forall p | p != 0 :: p in alloced' <==> p == add || (p in alloced && p != gone))
    && freed' == if Owned(alloced, gone) then freed + [gone] else freed
  }

  /** What was freed stays freed; what is recorded or freed now was so before, or is `add`, and no string
      gets lost in between. */
  ghost predicate Keeps(alloced: seq<Ptr>, freed: seq<Ptr>, add: Ptr, alloced': seq<Ptr>, freed': seq<Ptr>) {
    && freed <= freed'
    && forall p | p != 0 :: p in alloced' || p in freed' <==> p in alloced || p in freed || p == add
  }

  /** The strings made are those recorded and those freed. */
  ghost predicate Ledger(made: set<Ptr>, alloced: seq<Ptr>, freed: seq<Ptr>) {
    0 !in made && forall p | p != 0 :: p in made <==> p in alloced || p in freed
  }

  ghost function With(made: set<Ptr>, add: Ptr): set<Ptr> {
    if add == 0 then made else made + {add}
  }

  lemma LedgerKept(made: set<Ptr>, alloced: seq<Ptr>, freed: seq<Ptr>, add: Ptr, alloced': seq<Ptr>, freed': seq<Ptr>)
    requires Ledger(made, alloced, freed) && Keeps(alloced, freed, add, alloced', freed')
    ensures Ledger(With(made, add), alloced', freed')
  {
  }

  lemma CountIn(a: seq<Ptr>, p: Ptr)
    ensures p in a <==> multiset(a)[p] > 0
  {
  }

  lemma CountOnce(a: seq<Ptr>, i: nat)
    requires i < |a| && forall j | 0 <= j < |a| && j != i :: a[j] != a[i]
    ensures multiset(a)[a[i]] == 1
  {
    var x, y := a[..i], a[i + 1..];
    assert a == x + [a[i]] + y;
    assert a[i] !in x && a[i] !in y;
    assert multiset(a) == multiset(x) + multiset{a[i]} + multiset(y);
  }

  /** A string leaves the list. */
  lemma OwnsLess(a: seq<Ptr>, p: Ptr, b: seq<Ptr>, alloced: seq<Ptr>, freed: seq<Ptr>, alloced': seq<Ptr>,
                 freed': seq<Ptr>)
    requires Owns(a + [p] + b, alloced, freed) && Recorded(alloced, freed, p, 0, alloced', freed')
    ensures Owns(a + b, alloced', freed')
  {
    assert multiset(a + [p] + b) == multiset(a + b) + multiset{p};
    assert p in a + [p] + b;
    CountIn(a + b, p);
    forall q | Owned(alloced', q)
      ensures multiset(a + b)[q] == 1
    {
      assert Owned(alloced, q);
    }
    forall q | q in a + b
      ensures q !in freed' && q != 0
    {
      assert q in a + [p] + b;
    }
  }

  /** A string comes in the place of another: one that is not owned and is not freed, or a new one. */
  lemma OwnsSwap(list: seq<Ptr>, i: nat, s: Ptr, r: Ptr, alloced: seq<Ptr>, freed: seq<Ptr>, alloced': seq<Ptr>,
                 freed': seq<Ptr>)
    requires i < |list| && Owns(list, alloced, freed) && s != 0 && s !in freed && !Owned(alloced, s)
    requires r == 0 || (r == s && s !in list)
    requires Recorded(alloced, freed, list[i], r, alloced', freed')
    ensures Owns(list[i := s], alloced', freed')
  {
    var p := list[i];
    SwapCount(list, i, s);
    CountIn(list[i := s], p);
    CountIn(list, s);
    CountIn(list, p);
    forall q | Owned(alloced', q)
      ensures multiset(list[i := s])[q] == 1
    {
      if q != s {
        assert Owned(alloced, q);
      }
    }
    var swapped := list[i := s];
    assert p in list && p !in freed;
    assert Owned(alloced, p) ==> multiset(swapped)[p] == 0;
    forall q | q in swapped
      ensures q !in freed' && q != 0
    {
      if q != s {
        var k :| 0 <= k < |list| && swapped[k] == q;
        assert list[k] == q && q in list;
      }
    }
  }

  lemma SwapCount(list: seq<Ptr>, i: nat, s: Ptr)
    requires i < |list|
    ensures multiset(list[i := s]) == multiset(list) - multiset{list[i]} + multiset{s}
  {
  }

  lemma OwnsMore(list: seq<Ptr>, s: Ptr, r: Ptr, alloced: seq<Ptr>, freed: seq<Ptr>, alloced': seq<Ptr>,
                 freed': seq<Ptr>)
    requires Owns(list, alloced, freed) && s != 0 && s !in freed && !Owned(alloced, s)
    requires r == 0 || (r == s && s !in list)
    requires Recorded(alloced, freed, 0, r, alloced', freed')
    ensures Owns(list + [s], alloced', freed')
  {
    assert multiset(list + [s]) == multiset(list) + multiset{s};
    CountIn(list, s);
  }

  function Texts(ps: seq<Ptr>, text: map<Ptr, string>): (es: seq<string>)
    requires forall p | p in ps :: p in text
    ensures |es| == |ps| && forall i | 0 <= i < |ps| :: es[i] == text[ps[i]]
  {
    if ps == [] then [] else [text[ps[0]]] + Texts(ps[1..], text)
  }

  class Environment {
    /** The array of pointers, the one allocated last, and the record of allocated strings. */
    var environ: array?<Ptr>
    var oldenv: array?<Ptr>
    var alloced: seq<Ptr>
    /** What strings there are, the next address, and what has been freed. */
    var text: map<Ptr, string>
    var next: Ptr
    ghost var freed: seq<Ptr>
    /** The strings setenv has allocated so far, and the number of entries. */
    ghost var made: set<Ptr>
    ghost var n: nat

    constructor (environ: array?<Ptr>, text: map<Ptr, string>, ghost n: nat)
      requires environ != null ==> Ended(environ[..], n)
      requires environ == null ==> n == 0
      requires forall p | p in text :: p != 0
      requires environ != null ==> forall i | 0 <= i < n :: environ[i] in text
      ensures Valid() && this.environ == environ && alloced == [] && freed == [] && made == {} &&
              this.text == text && this.n == n
    {
      this.environ, oldenv, alloced, this.text, freed, this.n := environ, null, [], text, [], n;
      made := {};
      next := 1;
      new;
      next := Unused(text.Keys);
    }

    /** The pointers in the environment. */
    ghost function List(): seq<Ptr>
      reads this, environ
      requires environ != null ==> n <= environ.Length
    {
      if environ == null then [] else environ[..n]
    }

    ghost predicate Shape()
      reads this, environ
    {
      && (environ == null ==> n == 0)
      && (environ != null ==> Ended(environ[..], n))
      && next > 0 && (forall p | p in text :: 0 < p < next)
      && (forall p | p in List() :: p in text)
      && (forall p | p in freed :: p in text)
    }

    ghost predicate Valid()
      reads this, environ
    {
      Shape() && Owns(List(), alloced, freed) && Ledger(made, alloced, freed)
    }

    lemma OwnedListed(p: Ptr)
      requires Valid() && Owned(alloced, p)
      ensures p in List()
    {
      CountIn(List(), p);
    }

    /** A string allocated here is recorded, once, while it is in the list, and freed, once, when it no
        longer is. */
    lemma MadeSettled(p: Ptr)
      requires Valid() && p in made
      ensures p in List() <==> Owned(alloced, p)
      ensures p in List() <==> p !in freed
      ensures p in List() ==> multiset(List())[p] == 1 && multiset(alloced)[p] == 1
      ensures p in freed ==> multiset(freed)[p] == 1
    {
      CountIn(List(), p);
      if p in freed {
        var i :| 0 <= i < |freed| && freed[i] == p;
        CountOnce(freed, i);
      } else {
        var i :| 0 <= i < |alloced| && alloced[i] == p;
        CountOnce(alloced, i);
      }
    }

    /** The strings of the environment. */
    ghost function Entries(): seq<string>
      reads this, environ
      requires Shape()
    {
      Texts(List(), text)
    }

    method Getenv(name: string) returns (r: Option<string>)
      requires Valid()
      ensures r == Get(Entries(), name)
    {
      hide Owns, Texts;
      var l := NameLen(name);
      if l == 0 || l < |name| || environ == null {
        if environ == null {
          NoEntries();
        }
        return None;
      }
      var e := FindVar(name);
      if environ[e] == 0 {
        return None;
      }
      TextAt(e);
      return Some(text[environ[e]][l + 1..]);
    }

    /** Where a name is first set; at the end of the array if it is not. */
    method FindVar(name: string) returns (e: nat)
      requires Shape() && environ != null
      ensures e == Find(Entries(), name) && e <= n == |Entries()| && (environ[e] == 0 <==> e == n)
    {
      hide Has, Find, Texts;
      ghost var es := Entries();
      e := 0;
      while environ[e] != 0
        invariant e <= n && forall j | 0 <= j < e :: !Has(es[j], name)
        decreases n - e
      {
        TextAt(e);
        if Has(text[environ[e]], name) {
          FindIs(es, name, e);
          return;
        }
        e := e + 1;
      }
      FindIs(es, name, |es|);
    }

    lemma TextAt(i: nat)
      requires Shape() && environ != null && i <= n
      ensures environ[i] == 0 <==> i == n
      ensures i < n ==> environ[i] in text && Entries()[i] == text[environ[i]] && List()[i] == environ[i]
    {
      if i < n {
        assert environ[..n][i] == environ[i] && environ[..][i] == environ[i];
        assert List()[i] in List();
      } else {
        assert environ[..][n] == environ[n];
      }
    }

    lemma NoEntries()
      requires Shape() && environ == null
      ensures Entries() == []
    {
    }

    /** Forget a string that leaves, freeing it if it was recorded, and record one that comes. */
    method EnvRmAdd(gone: Ptr, add: Ptr)
      requires Slots(alloced) && (add != 0 ==> add !in alloced && add != gone)
      modifies this`alloced, this`freed
      ensures Recorded(old(alloced), old(freed), gone, add, alloced, freed)
    {
      hide Slots, Recorded;
      var add' := add;
      var i := 0;
      ghost var was := alloced;
      ghost var slot := -1;
      while i < |alloced|
        invariant i <= |alloced| == |was| && freed == old(freed)
        invariant -1 <= slot < i && (slot >= 0 ==> was[slot] == 0 && add != 0)
        invariant add' == (if slot >= 0 then 0 else add) && alloced == (if slot >= 0 then was[slot := add] else was)
        invariant forall k | 0 <= k < i :: was[k] != gone && (add' != 0 ==> was[k] != 0)
        decreases |alloced| - i
      {
        if alloced[i] == gone {
          alloced := alloced[i := add'];
          if gone != 0 {
            freed := freed + [gone];
          }
          RecordedAt(was, old(freed), gone, add, slot, i);
          return;
        } else if alloced[i] == 0 && add' != 0 {
          alloced := alloced[i := add'];
          add' := 0;
          slot := i;
        }
        i := i + 1;
      }
      RecordedNot(was, old(freed), gone, add, slot);
      if add' == 0 {
        return;
      }
      alloced := alloced + [add'];
    }

    /** A new array with the entries, one more, and the end. */
    method Grown(s: Ptr) returns (a: array<Ptr>)
      requires Shape() && s != 0
      ensures fresh(a) && a.Length == n + 2 && a[..n] == List() && a[n] == s && a[n + 1] == 0
    {
      var k := 0;
      if environ != null {
        TextAt(0);
        while environ[k] != 0
          invariant k <= n && (environ[k] == 0 <==> k == n)
          decreases n - k
        {
          k := k + 1;
          TextAt(k);
        }
      }
      a := new Ptr[k + 2];
      var i := 0;
      while i < k
        modifies a
        invariant 0 <= i <= k && (environ == null ==> k == 0) && a[..i] == List()[..i]
      {
        a[i] := environ[i];
        i := i + 1;
      }
      a[k], a[k + 1] := s, 0;
    }

    /** Put the string s, which sets name, into the environment; r is s if it was allocated for that. */
    method PutEnv(s: Ptr, r: Ptr, name: string)
      requires Valid() && s in text && Has(text[s], name) && s !in freed && !Owned(alloced, s)
      requires r == 0 || (r == s && s !in List())
      modifies this, environ
      ensures Valid() && text == old(text) && next == old(next) && Entries() == Put(old(Entries()), old(text[s]), name)
      ensures made == With(old(made), r) && old(freed) <= freed && (r != 0 ==> Owned(alloced, r))
      ensures environ != null && (environ == old(environ) || fresh(environ))
    {
      hide Has, Find, Texts, Owns, Put, Keeps, Ledger, With;
      ghost var es := Entries();
      if environ != null {
        var e := FindVar(name);
        TextAt(e);
        if environ[e] != 0 {
          Replace(e, s, r);
          PutAt(es, text[s], name, e);
          return;
        }
      } else {
        NoEntries();
      }
      PutEnd(es, text[s], name);
      AppendEntry(s, r);
    }

    method Replace(e: nat, s: Ptr, r: Ptr)
      requires Valid() && environ != null && e < n && s in text && s !in freed && !Owned(alloced, s)
      requires r == 0 || (r == s && s !in List())
      modifies this`alloced, this`freed, this`made, environ
      ensures Valid() && Entries() == old(Entries())[e := text[s]]
      ensures made == With(old(made), r) && old(freed) <= freed && (r != 0 ==> Owned(alloced, r))
    {
      hide Texts, Owns, Recorded, Ledger, With;
      ghost var list := List();
      TextAt(e);
      OwnsFacts(list, alloced, freed, s);
      var tmp := environ[e];
      environ[e] := s;
      assert List() == list[e := s];
      EnvRmAdd(tmp, r);
      OwnsSwap(list, e, s, r, old(alloced), old(freed), alloced, freed);
      RecordedFacts(old(alloced), old(freed), tmp, r, alloced, freed);
      LedgerKept(made, old(alloced), old(freed), r, alloced, freed);
      made := With(made, r);
      TextsSwap(list, e, s, text);
    }

    /** Record a string that was allocated, if one was. */
    method RecordNew(r: Ptr, ghost list: seq<Ptr>)
      requires Owns(list, alloced, freed) && (r != 0 ==> r !in alloced)
      modifies this`alloced, this`freed
      ensures Recorded(old(alloced), old(freed), 0, r, alloced, freed) && freed == old(freed)
      ensures Keeps(old(alloced), old(freed), r, alloced, freed) && (r != 0 ==> Owned(alloced, r))
    {
      hide Recorded, Owns;
      OwnsFacts(list, alloced, freed, 0);
      if r != 0 {
        EnvRmAdd(0, r);
        RecordedFacts(old(alloced), old(freed), 0, r, alloced, freed);
        RecordedNull(old(alloced), old(freed), r, alloced, freed);
      } else {
        RecordedNothing(alloced, freed, list);
      }
    }

    method AppendEntry(s: Ptr, r: Ptr)
      requires Valid() && s in text && s !in freed && !Owned(alloced, s)
      requires r == 0 || (r == s && s !in List())
      modifies this`environ, this`oldenv, this`n, this`alloced, this`freed, this`made
      ensures Valid() && Entries() == old(Entries()) + [text[s]] && freed == old(freed)
      ensures made == With(old(made), r) && (r != 0 ==> Owned(alloced, r))
      ensures environ != null && fresh(environ)
    {
      hide Texts, Owns, Recorded, Keeps, Ledger, With;
      ghost var list := List();
      OwnsFacts(list, alloced, freed, s);
      var newenv := Grown(s);
      environ, oldenv := newenv, newenv;
      n := n + 1;
      assert List() == list + [s];
      RecordNew(r, list);
      LedgerKept(made, old(alloced), old(freed), r, alloced, freed);
      made := With(made, r);
      OwnsMore(list, s, r, old(alloced), old(freed), alloced, freed);
      TextsMore(list, s, text);
    }

    /** unsetenv: every string that sets name leaves; the others move up, in their order. */
    method Unsetenv(name: string) returns (ret: int)
      requires Valid()
      modifies this`alloced, this`freed, this`n, environ
      ensures Valid() && ret == (if IsName(name) then 0 else -1)
      ensures Entries() == if IsName(name) then Drop(old(Entries()), name) else old(Entries())
      ensures old(freed) <= freed
    {
      hide Owns, Texts, Drop, Keeps, Ledger;
      var l := NameLen(name);
      if l == 0 || l < |name| {
        return -1;
      }
      ret := 0;
      if environ == null {
        NoEntries();
        DropEmpty(name);
        return;
      }
      Compact(name);
    }

    method Compact(name: string)
      requires Valid() && environ != null
      modifies this`alloced, this`freed, this`n, environ
      ensures Valid() && Entries() == Drop(old(Entries()), name) && old(freed) <= freed
    {
      hide Texts, Drop, Has, Moving, Owns, Keeps, Ledger;
      ghost var list, es := List(), Entries();
      ghost var kept: seq<Ptr> := [];
      Unmoved(list);
      assert es[0..] == es;
      TextsEmpty(text);
      assert [] + Drop(es, name) == Drop(es, name);
      var e, eo := 0, 0;
      while environ[e] != 0
        invariant e <= |list| < environ.Length && Moving(kept, list, e, eo) && Used(kept) && old(freed) <= freed
        invariant Drop(es, name) == Texts(kept, text) + Drop(es[e..], name)
        invariant environ[e] == 0 <==> e == |list|
        decreases |list| - e
      {
        TextsAt(list, text, e);
        DropNext(kept, es, e, list[e], name);
        eo, kept := CompactOne(name, e, eo, kept, list);
        e := e + 1;
      }
      Finished(kept, es, list, name);
      Close(kept, list, e, eo);
    }

    /** The list has been gone through up to e, what is kept moved to the front, up to eo. */
    ghost predicate Moving(kept: seq<Ptr>, list: seq<Ptr>, e: nat, eo: nat)
      reads this`environ, this`alloced, this`freed, this`text, this`next, this`made, environ
    {
      && environ != null && eo == |kept| <= e <= |list| < environ.Length && environ[|list|] == 0
      && environ[..eo] == kept && environ[e..|list|] == list[e..] && Used(list) && Used(kept)
      && Owns(kept + list[e..], alloced, freed) && (forall p | p in freed :: p in text)
      && next > 0 && (forall p | p in text :: 0 < p < next) && Ledger(made, alloced, freed)
    }

    lemma Unmoved(list: seq<Ptr>)
      requires Valid() && environ != null && list == List()
      ensures Moving([], list, 0, 0) && |list| == n && Used(list) && |Entries()| == n
      ensures environ[0] == 0 <==> |list| == 0
    {
      hide Owns, Texts;
      TextAt(n);
      TextAt(0);
      assert list[0..] == list && [] + list == list && environ[0..n] == list;
    }

    /** The end of the list: what is left is the list. */
    method Close(ghost kept: seq<Ptr>, ghost list: seq<Ptr>, e: nat, eo: nat)
      requires Moving(kept, list, e, eo) && e == |list| && environ != null
      modifies this`n, environ
      ensures Valid() && List() == kept
    {
      hide Owns;
      assert list[e..] == [] && kept + [] == kept;
      assert forall i | 0 <= i < eo :: environ[i] == kept[i] && kept[i] in kept;
      if eo != e {
        environ[eo] := 0;
      }
      n := eo;
    }

    /** Known, and not NULL. */
    ghost predicate Used(ps: seq<Ptr>)
      reads this`text
    {
      forall p | p in ps :: p in text && p != 0
    }

    lemma DropNext(kept: seq<Ptr>, es: seq<string>, e: nat, p: Ptr, name: string)
      requires e < |es| && Used(kept) && p in text && p != 0 && es[e] == text[p]
      ensures Used(kept + [p])
      ensures Texts(kept, text) + Drop(es[e..], name) ==
                if Has(es[e], name) then Texts(kept, text) + Drop(es[e + 1..], name)
                else Texts(kept + [p], text) + Drop(es[e + 1..], name)
    {
      hide Texts, Drop, Has;
      assert es[e..] == [es[e]] + es[e + 1..];
      DropCons(es[e], es[e + 1..], name);
      TextsMore(kept, p, text);
      assert Texts(kept, text) + ([es[e]] + Drop(es[e + 1..], name))
          == Texts(kept, text) + [es[e]] + Drop(es[e + 1..], name);
    }

    lemma Finished(kept: seq<Ptr>, es: seq<string>, list: seq<Ptr>, name: string)
      requires Used(kept)
      ensures es[|es|..] == [] && list[|list|..] == [] && kept + [] == kept
      ensures Texts(kept, text) + Drop([], name) == Texts(kept, text)
    {
    }

    /** The entry at e leaves, or moves up to eo. */
    method CompactOne(name: string, e: nat, eo: nat, ghost kept: seq<Ptr>, ghost list: seq<Ptr>)
      returns (eo': nat, ghost kept': seq<Ptr>)
      requires Moving(kept, list, e, eo) && e < |list|
      modifies this`alloced, this`freed, environ
      ensures list[e] in text && kept' == if Has(text[list[e]], name) then kept else kept + [list[e]]
      ensures Moving(kept', list, e + 1, eo') && Used(kept') && environ != null && e + 1 < environ.Length
      ensures (environ[e + 1] == 0 <==> e + 1 == |list|) && old(freed) <= freed
    {
      hide Owns, Has, Ledger, Keeps;
      ghost var m := |list|;
      assert environ[e] == environ[e..m][0] == list[e..][0] && list[e] in list;
      assert list[e..] == [list[e]] + list[e + 1..] && environ[e..m][1..] == environ[e + 1..m];
      assert list[e..][1..] == list[e + 1..];
      assert e + 1 < m ==> environ[e + 1] == environ[e + 1..m][0] == list[e + 1..][0] && list[e + 1] in list;
      assert kept + ([list[e]] + list[e + 1..]) == kept + [list[e]] + list[e + 1..];
      if Has(text[environ[e]], name) {
        Leave(kept, list, e);
        LedgerKept(made, old(alloced), old(freed), 0, alloced, freed);
        return eo, kept;
      }
      ghost var tail := environ[e + 1..m];
      environ[eo] := environ[e];
      assert environ[e + 1..m] == tail;
      return eo + 1, kept + [list[e]];
    }

    /** The string at position e of what was the list leaves. */
    method Leave(ghost kept: seq<Ptr>, ghost list: seq<Ptr>, e: nat)
      requires e < |list| && Owns(kept + [list[e]] + list[e + 1..], alloced, freed) && environ != null &&
               e < environ.Length
      requires environ[e] == list[e]
      modifies this`alloced, this`freed
      ensures Owns(kept + list[e + 1..], alloced, freed) && Keeps(old(alloced), old(freed), 0, alloced, freed)
      ensures freed == old(freed) || freed == old(freed) + [list[e]]
    {
      hide Owns, Recorded;
      OwnsFacts(kept + [list[e]] + list[e + 1..], alloced, freed, 0);
      EnvRmAdd(environ[e], 0);
      RecordedFacts(old(alloced), old(freed), list[e], 0, alloced, freed);
      OwnsLess(kept, list[e], list[e + 1..], old(alloced), old(freed), alloced, freed);
    }

    /** clearenv: every string leaves. */
    method Clearenv() returns (ret: int)
      requires Valid()
      modifies this`environ, this`alloced, this`freed, this`n
      ensures Valid() && ret == 0 && Entries() == [] && environ == null
      ensures (forall p | p in alloced :: p == 0) && old(freed) <= freed
    {
      hide Owns, Texts, Ledger, Keeps;
      ghost var list := List();
      assert forall p | p in list :: p != 0;
      var e := environ;
      ghost var m := n;
      environ, n := null, 0;
      if e != null {
        assert e[..][m] == 0;
        ReleaseAll(e, list);
        LedgerKept(made, old(alloced), old(freed), 0, alloced, freed);
      } else {
        assert list == [];
      }
      NoneOwned(alloced, freed);
      NoEntries();
      return 0;
    }

    /** Every string of an array leaves. */
    method ReleaseAll(e: array<Ptr>, ghost list: seq<Ptr>)
      requires |list| < e.Length && e[..|list|] == list && e[|list|] == 0 && Owns(list, alloced, freed)
      requires forall p | p in list :: p != 0 && p in text
      requires forall p | p in freed :: p in text
      modifies this`alloced, this`freed
      ensures Owns([], alloced, freed) && (forall p | p in freed :: p in text) &&
              Keeps(old(alloced), old(freed), 0, alloced, freed) && old(freed) <= freed
    {
      hide Owns;
      var i := 0;
      assert list[0..] == list && [] + list[0..] == list;
      while e[i] != 0
        invariant i <= |list| && Owns([] + list[i..], alloced, freed) && forall p | p in freed :: p in text
        invariant Keeps(old(alloced), old(freed), 0, alloced, freed)
        decreases |list| - i
      {
        ElemIn(e[..], list, i);
        assert [] + list[i..] == [] + [list[i]] + list[i + 1..];
        LeaveOld(e, list, i);
        i := i + 1;
      }
      EndAt(e[..], list, i);
      assert [] + list[|list|..] == [];
    }

    method LeaveOld(e: array<Ptr>, ghost list: seq<Ptr>, i: nat)
      requires i < |list| && Owns([] + [list[i]] + list[i + 1..], alloced, freed) && i < e.Length && e[i] == list[i]
      modifies this`alloced, this`freed
      ensures Owns([] + list[i + 1..], alloced, freed) && (freed == old(freed) || freed == old(freed) + [list[i]])
      ensures Keeps(old(alloced), old(freed), 0, alloced, freed)
    {
      hide Owns, Recorded;
      OwnsFacts([] + [list[i]] + list[i + 1..], alloced, freed, 0);
      EnvRmAdd(e[i], 0);
      RecordedFacts(old(alloced), old(freed), list[i], 0, alloced, freed);
      OwnsLess([], list[i], list[i + 1..], old(alloced), old(freed), alloced, freed);
    }

    /** setenv: a new string, unless the name is set already and must not be overwritten. */
    method Setenv(name: string, value: string, overwrite: bool) returns (ret: int)
      requires Valid()
      modifies this, environ
      ensures Valid() && ret == (if IsName(name) then 0 else -1)
      ensures Entries() == if IsName(name) && (overwrite || Get(old(Entries()), name).None?)
                           then Put(old(Entries()), name + "=" + value, name) else old(Entries())
      ensures made == old(made)
           || exists s | s !in old(made) && s in text && s !in old(text) ::
                made == old(made) + {s} && text[s] == name + "=" + value && s in List()
      ensures old(freed) <= freed && (forall p | p in old(text) :: p in text && text[p] == old(text)[p])
      ensures environ == null || environ == old(environ) || fresh(environ)
      ensures IsName(name) && (overwrite || Get(old(Entries()), name).None?) ==> made != old(made)
    {
      hide Owns, Texts, Put, Get, Ledger;
      var l1 := NameLen(name);
      if l1 == 0 || l1 < |name| {
        return -1;
      }
      if !overwrite {
        var v := Getenv(name);
        if v.Some? {
          return 0;
        }
      }
      ghost var es := Entries();
      var s := Malloc(name + "=" + value);
      SetsName(name, value);
      PutEnv(s, s, name);
      OwnedListed(s);
      return 0;
    }

    /** A new string. */
    method Malloc(t: string) returns (s: Ptr)
      requires Valid()
      modifies this`text, this`next
      ensures Valid() && Entries() == old(Entries()) && s in text && text[s] == t
      ensures s != 0 && s !in List() && s !in freed && !Owned(alloced, s) && s !in made
      ensures text == old(text)[s := t] && s !in old(text)
    {
      hide Owns;
      OwnsFacts(List(), alloced, freed, 0);
      ghost var list := List();
      s := next;
      assert s !in list && s !in freed;
      OwnedKnown();
      TextsSame(list, text, text[s := t]);
      text := text[s := t];
      next := next + 1;
      assert List() == list;
    }

    lemma OwnedKnown()
      requires Valid()
      ensures forall p | Owned(alloced, p) :: p in text
    {
      OwnsFacts(List(), alloced, freed, 0);
    }

    /** putenv: the caller's own string; one without a value takes the name out. */
    method Putenv(s: Ptr) returns (ret: int)
      requires Valid() && s in text && s !in made
      modifies this, environ
      ensures Valid() && text == old(text) && made == old(made) && old(freed) <= freed
      ensures environ == null || environ == old(environ) || fresh(environ)
      ensures var t := old(text[s]); var n := NameOf(t);
              if n != "" && n != t then ret == 0 && Entries() == Put(old(Entries()), t, n)
              else ret == (if t == "" || n == "" then -1 else 0)
                   && Entries() == if IsName(t) then Drop(old(Entries()), t) else old(Entries())
    {
      hide Owns, Texts, Put, Drop;
      var t := text[s];
      var l := NameLen(t);
      NameIs(t, l);
      if l == 0 || l == |t| {
        ret := Unsetenv(t);
        return;
      }
      PutEnv(s, 0, t[..l]);
      return 0;
    }
  }

  /** The part of a string before the first '='. */
  function NameOf(t: string): (n: string)
    ensures n <= t && (|n| < |t| ==> t[|n|] == '=') && forall i | 0 <= i < |n| :: n[i] != '='
  {
    if t == "" || t[0] == '=' then "" else [t[0]] + NameOf(t[1..])
  }

  lemma {:induction false} NameIs(t: string, l: nat)
    requires l <= |t| && (l < |t| ==> t[l] == '=') && forall i | 0 <= i < l :: t[i] != '='
    ensures NameOf(t) == t[..l]
    ensures 0 < l < |t| ==> Has(t, t[..l])
    ensures IsName(t) <==> 0 < l == |t|
    decreases l
  {
    if l > 0 {
      NameIs(t[1..], l - 1);
      assert [t[0]] + t[1..][..l - 1] == t[..l];
    }
  }

  lemma SetsName(name: string, value: string)
    ensures Has(name + "=" + value, name)
  {
    assert (name + "=" + value)[..|name|] == name;
  }

  lemma {:induction false} TextsSame(ps: seq<Ptr>, text: map<Ptr, string>, text': map<Ptr, string>)
    requires forall p | p in ps :: p in text && p in text' && text[p] == text'[p]
    ensures Texts(ps, text) == Texts(ps, text')
  {
    hide Texts;
  }

  /** With nothing in the list nothing is recorded. */
  lemma NoneOwned(alloced: seq<Ptr>, freed: seq<Ptr>)
    requires Owns([], alloced, freed)
    ensures forall p | p in alloced :: p == 0
  {
    forall p | p in alloced
      ensures p == 0
    {
      OwnedOrNull(alloced, p);
    }
  }

  lemma EndAt(a: seq<Ptr>, list: seq<Ptr>, i: nat)
    requires i <= |list| < |a| && a[..|list|] == list && a[i] == 0 && forall p | p in list :: p != 0
    ensures i == |list|
  {
    if i < |list| {
      ElemIn(a, list, i);
    }
  }

  lemma ElemIn(a: seq<Ptr>, list: seq<Ptr>, i: nat)
    requires i < |list| < |a| && a[..|list|] == list
    ensures a[i] == list[i] && list[i] in list
  {
    assert a[..|list|][i] == a[i];
  }

  lemma OwnedOrNull(alloced: seq<Ptr>, p: Ptr)
    requires p in alloced
    ensures p == 0 || Owned(alloced, p)
  {
  }

  lemma DropEmpty(name: string)
    ensures Drop([], name) == []
  {
  }

  lemma TextsEmpty(text: map<Ptr, string>)
    ensures Texts([], text) == []
  {
  }

  lemma TextsAt(ps: seq<Ptr>, text: map<Ptr, string>, i: nat)
    requires i < |ps| && forall p | p in ps :: p in text
    ensures Texts(ps, text)[i] == text[ps[i]]
  {
  }

  lemma RecordedNull(alloced: seq<Ptr>, freed: seq<Ptr>, add: Ptr, alloced': seq<Ptr>, freed': seq<Ptr>)
    requires Recorded(alloced, freed, 0, add, alloced', freed')
    ensures freed' == freed
  {
  }

  lemma RecordedNothing(alloced: seq<Ptr>, freed: seq<Ptr>, list: seq<Ptr>)
    requires Owns(list, alloced, freed)
    ensures Recorded(alloced, freed, 0, 0, alloced, freed)
  {
  }

  lemma {:induction false} TextsMore(ps: seq<Ptr>, s: Ptr, text: map<Ptr, string>)
    requires s in text && forall p | p in ps :: p in text
    ensures (forall p | p in ps + [s] :: p in text) && Texts(ps + [s], text) == Texts(ps, text) + [text[s]]
  {
    hide Texts;
  }

  lemma RecordedFacts(alloced: seq<Ptr>, freed: seq<Ptr>, gone: Ptr, add: Ptr, alloced': seq<Ptr>, freed': seq<Ptr>)
    requires Recorded(alloced, freed, gone, add, alloced', freed')
    ensures forall p | p != 0 :: p in alloced' ==> p == add || p in alloced
    ensures freed' == freed || (gone in alloced && freed' == freed + [gone])
    ensures Keeps(alloced, freed, add, alloced', freed') && (add != 0 ==> Owned(alloced', add)) && freed <= freed'
  {
  }

  lemma OwnsFacts(list: seq<Ptr>, alloced: seq<Ptr>, freed: seq<Ptr>, s: Ptr)
    requires Owns(list, alloced, freed)
    ensures Slots(alloced) && (!Owned(alloced, s) && s != 0 ==> s !in alloced)
    ensures forall p | Owned(alloced, p) :: p in list && p !in freed
  {
    forall p | Owned(alloced, p)
      ensures p in list
    {
      CountIn(list, p);
    }
  }

  lemma {:induction false} TextsSwap(ps: seq<Ptr>, i: nat, s: Ptr, text: map<Ptr, string>)
    requires i < |ps| && s in text && forall p | p in ps :: p in text
    ensures (forall p | p in ps[i := s] :: p in text) && Texts(ps[i := s], text) == Texts(ps, text)[i := text[s]]
  {
    hide Texts;
    forall p | p in ps[i := s]
      ensures p in text
    {
      var k :| 0 <= k < |ps| && ps[i := s][k] == p;
      assert k != i ==> ps[k] in ps;
    }
  }

  lemma PutAt(es: seq<string>, s: string, name: string, i: nat)
    requires i == Find(es, name) < |es|
    ensures Put(es, s, name) == es[i := s]
  {
  }

  lemma PutEnd(es: seq<string>, s: string, name: string)
    ensures Find(es, name) == |es| ==> Put(es, s, name) == es + [s]
  {
  }

  /** The string that leaves was found at i, an empty place for the one that comes before, if any. */
  lemma RecordedAt(was: seq<Ptr>, freed: seq<Ptr>, gone: Ptr, add: Ptr, slot: int, i: nat)
    requires Slots(was) && i < |was| && was[i] == gone && -1 <= slot < i && (slot >= 0 ==> was[slot] == 0 && gone != 0)
    requires add != 0 ==> add !in was && add != gone
    requires forall k | 0 <= k < i :: was[k] != gone
    ensures var alloced := if slot >= 0 then was[slot := add][i := 0] else was[i := add];
            Recorded(was, freed, gone, add, alloced, if gone != 0 then freed + [gone] else freed)
  {
    var alloced := if slot >= 0 then was[slot := add][i := 0] else was[i := add];
    forall p | p != 0
      ensures p in alloced <==> p == add || (p in was && p != gone)
    {
      if p in was && p != gone {
        var k :| 0 <= k < |was| && was[k] == p;
        assert alloced[k] == p;
      }
      if p == add {
        assert alloced[if slot >= 0 then slot else i] == p;
      }
    }
  }

  /** The string that leaves was not recorded. */
  lemma RecordedNot(was: seq<Ptr>, freed: seq<Ptr>, gone: Ptr, add: Ptr, slot: int)
    requires Slots(was) && gone !in was && -1 <= slot < |was| && (slot >= 0 ==> was[slot] == 0 && add != 0)
    requires add != 0 ==> add !in was && add != gone
    ensures slot >= 0 ==> Recorded(was, freed, gone, add, was[slot := add], freed)
    ensures slot < 0 ==> Recorded(was, freed, gone, add, was + [add], freed)
    ensures add == 0 ==> Recorded(was, freed, gone, add, was, freed)
  {
    if slot >= 0 {
      forall p | p != 0
        ensures p in was[slot := add] <==> p == add || p in was
      {
        if p in was {
          var k :| 0 <= k < |was| && was[k] == p;
          assert was[slot := add][k] == p;
        }
        if p == add {
          assert was[slot := add][slot] == p;
        }
      }
    }
  }

  /** The entries are the first n, ended by NULL. */
  ghost predicate Ended(a: seq<Ptr>, n: nat) {
    n < |a| && a[n] == 0 && forall i | 0 <= i < n :: a[i] != 0
  }

  /** An address above all in use. */
  method Unused(used: set<Ptr>) returns (p: Ptr)
    ensures p > 0 && forall q | q in used :: q < p
  {
    p := 1;
    var left := used;
    while left != {}
      invariant p > 0 && left <= used && forall q | q in used && q !in left :: q < p
      decreases left
    {
      var q :| q in left;
      if q >= p {
        p := q + 1;
      }
      left := left - {q};
    }
  }

  /** The characters before the first '='. */
  method NameLen(s: string) returns (l: nat)
    ensures l <= |s| && (l < |s| ==> s[l] == '=') && forall i | 0 <= i < l :: s[i] != '='
  {
    l := 0;
    while l < |s| && s[l] != '='
      invariant l <= |s| && forall i | 0 <= i < l :: s[i] != '='
    {
      l := l + 1;
    }
  }
}
