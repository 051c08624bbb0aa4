// An environment as a list of "name=value" strings, the first match of a name counting.
module EnvSpec {
  import opened Wrappers

  /** e sets name. */
  predicate Has(e: string, name: string) {
    |e| > |name| && e[..|name|] == name && e[|name|] == '='
  }

  predicate IsName(name: string) {
    name != "" && forall i | 0 <= i < |name| :: name[i] != '='
  }

  /** Where name is first set; the length of the list if it is not. */
  function Find(es: seq<string>, name: string): (i: nat)
    ensures i <= |es| && (i < |es| ==> Has(es[i], name)) && forall j | 0 <= j < i :: !Has(es[j], name)
  {
    if es == [] || Has(es[0], name) then 0 else 1 + Find(es[1..], name)
  }

  function Get(es: seq<string>, name: string): Option<string> {
    if IsName(name) && Find(es, name) < |es| then Some(es[Find(es, name)][|name| + 1..]) else None
  }

  /** Put s, which sets name, in the place of the first string that does, or at the end. */
  function Put(es: seq<string>, s: string, name: string): seq<string> {
    if Find(es, name) < |es| then es[Find(es, name) := s] else es + [s]
  }

  /** All strings but those that set name, in their order. */
  function Drop(es: seq<string>, name: string): seq<string> {
    if es == [] then [] else (if Has(es[0], name) then [] else [es[0]]) + Drop(es[1..], name)
  }

  lemma HasOne(e: string, name: string, other: string)
    requires IsName(name) && IsName(other) && Has(e, name) && Has(e, other)
    ensures name == other
  {
    NoSign(e, name);
    NoSign(e, other);
    assert |name| == |other|;
    assert e[..|name|] == name && e[..|other|] == other;
  }

  lemma NoSign(e: string, name: string)
    requires IsName(name) && Has(e, name)
    ensures forall i | 0 <= i < |name| :: e[i] != '='
  {
    assert forall i | 0 <= i < |name| :: e[i] == e[..|name|][i];
  }

  lemma FindIs(es: seq<string>, name: string, i: nat)
    requires i <= |es| && (i < |es| ==> Has(es[i], name)) && forall j | 0 <= j < i :: !Has(es[j], name)
    ensures Find(es, name) == i
  {
  }

  /** What is put is what is got, and no other name is touched. */
  lemma GetPut(es: seq<string>, name: string, value: string, other: string)
    requires IsName(name)
    ensures Get(Put(es, name + "=" + value, name), name) == Some(value)
    ensures other != name ==> Get(Put(es, name + "=" + value, name), other) == Get(es, other)
  {
    var s := name + "=" + value;
    var i := Find(es, name);
    var r := Put(es, s, name);
    assert s[..|name|] == name && s[|name| + 1..] == value;
    assert Has(s, name);
    FindIs(r, name, i);
    if IsName(other) && other != name {
      var j := Find(es, other);
      if Has(s, other) {
        HasOne(s, name, other);
      }
      if i < |es| && i == j {
        HasOne(es[i], name, other);
      }
      if j < |es| {
        FindIs(r, other, j);
      } else {
        FindIs(r, other, |r|);
      }
    }
  }

  lemma {:induction false} DropNone(es: seq<string>, name: string)
    ensures forall i | 0 <= i < |Drop(es, name)| :: !Has(Drop(es, name)[i], name)
    ensures multiset(Drop(es, name)) <= multiset(es)
  {
    if es != [] {
      DropNone(es[1..], name);
      assert es == [es[0]] + es[1..];
    }
  }

  lemma GetCons(e: string, more: seq<string>, name: string)
    requires IsName(name)
    ensures Get([e] + more, name) == if Has(e, name) then Some(e[|name| + 1..]) else Get(more, name)
  {
    assert ([e] + more)[1..] == more;
  }

  /** Dropping a name leaves nothing of it, and every other name as it was. */
  lemma {:induction false} GetDrop(es: seq<string>, name: string, other: string)
    requires IsName(name)
    ensures Get(Drop(es, name), name) == None
    ensures other != name ==> Get(Drop(es, name), other) == Get(es, other)
    decreases |es|
  {
    if es != [] {
      GetDrop(es[1..], name, other);
      assert es == [es[0]] + es[1..];
      DropCons(es[0], es[1..], name);
      hide Get, Has, Drop, Find;
      GetCons(es[0], Drop(es[1..], name), name);
      if IsName(other) && other != name {
        GetCons(es[0], es[1..], other);
        GetCons(es[0], Drop(es[1..], name), other);
        if Has(es[0], name) && Has(es[0], other) {
          HasOne(es[0], name, other);
        }
      } else if other != name {
        GetNoName(es, other);
        GetNoName(Drop(es, name), other);
      }
    }
  }

  lemma GetNoName(es: seq<string>, name: string)
    requires !IsName(name)
    ensures Get(es, name) == None
  {
  }

  lemma DropCons(e: string, more: seq<string>, name: string)
    ensures Drop([e] + more, name) == (if Has(e, name) then [] else [e]) + Drop(more, name)
    ensures Drop([e] + more, name) == if Has(e, name) then Drop(more, name) else [e] + Drop(more, name)
  {
    assert ([e] + more)[1..] == more;
  }

  /** What is got is the value of the first string of the form name=value; nothing is got where there is none. */
  lemma GetIs(es: seq<string>, name: string)
    requires IsName(name)
    ensures Get(es, name).None? <==> forall i | 0 <= i < |es| :: !(name + "=" <= es[i])
    ensures Get(es, name).Some? ==>
              exists i :: 0 <= i < |es| && es[i] == name + "=" + Get(es, name).value
                          && forall j | 0 <= j < i :: !(name + "=" <= es[j])
  {
    assert forall e: string :: Has(e, name) <==> name + "=" <= e by {
      forall e: string
        ensures Has(e, name) <==> name + "=" <= e
      {
        SetsIs(e, name);
      }
    }
    var i := Find(es, name);
    if i < |es| {
      SetsText(es[i], name);
    }
  }

  lemma SetsIs(e: string, name: string)
    ensures Has(e, name) <==> name + "=" <= e
  {
    if |e| > |name| {
      assert e[..|name| + 1] == e[..|name|] + [e[|name|]];
      assert (name + "=")[..|name|] == name && (name + "=")[|name|] == '=';
    }
  }

  lemma SetsText(e: string, name: string)
    requires Has(e, name)
    ensures e == name + "=" + e[|name| + 1..]
  {
    assert e == e[..|name|] + [e[|name|]] + e[|name| + 1..];
  }

  /** Strings that do not set the name all stay. */
  lemma {:induction false} DropKeeps(es: seq<string>, name: string, e: string)
    requires !Has(e, name)
    ensures multiset(Drop(es, name))[e] == multiset(es)[e]
  {
    if es != [] {
      DropKeeps(es[1..], name, e);
      assert es == [es[0]] + es[1..];
    }
  }
}
