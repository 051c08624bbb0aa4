// Group records: printed as lines, and read back from lines cut in place.
module GroupRecords {
  import opened Wrappers
  import opened CStrings
  import opened Decimals
  import opened RecordFields
  import opened RecordFiles

  datatype Group = Group(name: string, passwd: string, gid: nat, mem: seq<string>)

  // ---- printing

  function JoinMembers(mem: seq<string>): string {
    if mem == [] then "" else if |mem| == 1 then mem[0] else mem[0] + "," + JoinMembers(mem[1..])
  }

  /** A member more stands behind a comma, unless it is the only one. */
  lemma {:induction false} JoinMore(mem: seq<string>, x: string)
    ensures JoinMembers(mem + [x]) == if mem == [] then x else JoinMembers(mem) + "," + x
  {
    if mem != [] {
      assert (mem + [x])[1..] == mem[1..] + [x];
      JoinMore(mem[1..], x);
      assert mem[0] + "," + (JoinMembers(mem[1..]) + "," + x) == (mem[0] + "," + JoinMembers(mem[1..])) + "," + x;
    }
  }

  /** The line of a record, without its end. */
  function Line(g: Group): string {
    g.name + ":" + g.passwd + ":" + Dec(g.gid) + ":" + JoinMembers(g.mem)
  }

  /** putgrent: members one after the other, a comma before all but the first. */
  method PutGroup(g: Group) returns (out: string)
    ensures out == g.name + ":" + g.passwd + ":" + Dec(g.gid) + ":" + JoinMembers(g.mem) + "\n"
  {
    out := g.name + ":" + g.passwd + ":" + Dec(g.gid) + ":";
    ghost var head := out;
    ghost var done := "";
    for i := 0 to |g.mem|
      invariant out == head + done
      invariant JoinMembers(g.mem) == done + (if i > 0 && i < |g.mem| then "," else "") + JoinMembers(g.mem[i..])
    {
      JoinStep(g.mem, i, done);
      ghost var more := (if i > 0 then "," else "") + g.mem[i];
      out := out + (if i > 0 then "," else "") + g.mem[i];
      assert out == head + (done + more);
      done := done + more;
    }
    assert g.mem[|g.mem|..] == [] && done + "" + "" == done;
    out := out + "\n";
  }

  lemma JoinStep(mem: seq<string>, i: nat, done: string)
    requires i < |mem|
    ensures done + (if i > 0 then "," else "") + JoinMembers(mem[i..])
         == (done + ((if i > 0 then "," else "") + mem[i]))
            + (if i + 1 < |mem| then "," else "") + JoinMembers(mem[i + 1..])
  {
    assert mem[i..][1..] == mem[i + 1..];
    assert JoinMembers(mem[i..]) == mem[i] + (if i + 1 < |mem| then "," else "") + JoinMembers(mem[i + 1..]);
    Cat(done, if i > 0 then "," else "", mem[i], if i + 1 < |mem| then "," else "", JoinMembers(mem[i + 1..]));
  }

  lemma Cat(a: string, b: string, c: string, d: string, e: string)
    ensures a + b + (c + d + e) == (a + (b + c)) + d + e
  {
  }

  // ---- reading

  /** The members of a list: each from where it starts to the next comma behind its first character;
      the first also to one at its first. None when a comma ends the list. */
  function Members(m: string, start: nat, k: nat): Option<seq<string>>
    requires start <= k && start <= |m|
    decreases |m| + 2 - k
  {
    if k > |m| then
      None
    else if k == |m| then
      Some([m[start..]])
    else if m[k] == ',' then
      match Members(m, k + 1, k + 2)
      case None => None
      case Some(more) => Some([m[start..k]] + more)
    else
      Members(m, start, k + 1)
  }

  function Parse(t: string): Outcome<Group> {
    if t == "" then
      Wild
    else
      match FindColon(t, 1)
      case None => Skip
      case Some(c1) =>
        match FindColon(t, c1 + 1)
        case None => Skip
        case Some(c2) =>
          match Atou(t, c2 + 1, 0)
          case None => Wild
          case Some(num) =>
            if t[num.1] != ':' then
              Skip
            else
              var m := t[num.1 + 1..];
              match (if m == "" then Some([]) else Members(m, 0, 0))
              case None => Wild
              case Some(mem) => Rec(Group(t[..c1], t[c1 + 1..c2], num.0, mem))
  }

  predicate IsMember(s: string) {
    s != "" && IsField(s) && forall i | 0 <= i < |s| :: s[i] != ','
  }

  predicate AllMembers(mem: seq<string>) {
    forall i | 0 <= i < |mem| :: IsMember(mem[i])
  }

  /** A record that can be written as a line. */
  predicate Writable(g: Group) {
    g.name != "" && IsField(g.name) && IsField(g.passwd) && g.gid < WORD && AllMembers(g.mem)
  }

  /** Members written behind `front` are found again. */
  lemma {:induction false} MembersBack(m: string, start: nat, k: nat, mem: seq<string>)
    requires AllMembers(mem) && mem != [] && start <= k <= start + |mem[0]| &&
             (start < k || start == 0 || k == start + 1)
    requires start <= |m| && m[start..] == JoinMembers(mem)
    ensures Members(m, start, k) == Some(mem)
    decreases |m| - start, start + |mem[0]| - k
  {
    var x := mem[0];
    var e := start + |x|;
    assert IsMember(x);
    JoinHead(mem);
    assert m[start..][..|x|] == x;
    assert m[start..e] == x;
    if k < e {
      assert m[k] == m[start..][k - start] == x[k - start];
      MembersBack(m, start, k + 1, mem);
    } else if |mem| == 1 {
      assert m[start..] == x && |m| == e && [x] == mem;
    } else {
      var rest := mem[1..];
      assert m[e] == m[start..][|x|] == ',';
      assert m[e + 1..] == m[start..][|x| + 1..] == JoinMembers(rest);
      assert IsMember(rest[0]);
      JoinHead(rest);
      MembersBack(m, e + 1, e + 2, rest);
      assert [x] + rest == mem;
    }
  }

  lemma JoinHead(mem: seq<string>)
    requires mem != [] && AllMembers(mem)
    ensures mem[0] <= JoinMembers(mem) && |mem[0]| > 0 && (|mem| > 1 ==> AllMembers(mem[1..]))
    ensures |mem| == 1 ==> JoinMembers(mem) == mem[0]
    ensures |mem| > 1 ==> JoinMembers(mem) == mem[0] + "," + JoinMembers(mem[1..])
  {
    assert IsMember(mem[0]);
  }

  /** A line of four fields, the third of digits and the last the members with commas between them, is read
      field by field. */
  lemma ParseFields(g: Group, d: string)
    requires g.name != "" && IsField(g.name) && IsField(g.passwd) && Reads(d, g.gid) && AllMembers(g.mem)
    ensures Parse(g.name + ":" + g.passwd + ":" + d + ":" + JoinMembers(g.mem)) == Rec(g)
  {
    hide *;
    var m := JoinMembers(g.mem);
    var t := g.name + ":" + g.passwd + ":" + d + ":" + m;
    var r2 := d + ":" + m;
    var r1 := g.passwd + ":" + r2;
    LineParts(t, g.name, g.passwd, d, m, r1, r2);
    FirstField(t, g.name, r1);
    var c1 := |g.name|;
    NextField(t, c1 + 1, r1, g.passwd, r2);
    var c2 := c1 + 1 + |g.passwd|;
    NextNumber(t, c2 + 1, r2, g.gid, d, m);
    var e := c2 + 1 + |d|;
    LastField(t, e + 1, m);
    MemberPart(g.mem);
    ParseAt(t, c1, c2, g.gid, e, m, g.mem);
    Same(g);
  }

  lemma Same(g: Group)
    ensures g == Group(g.name, g.passwd, g.gid, g.mem)
  {
  }

  lemma LineParts(t: string, n: string, p: string, d: string, m: string, r1: string, r2: string)
    requires t == n + ":" + p + ":" + d + ":" + m && r2 == d + ":" + m && r1 == p + ":" + r2
    ensures FieldThen(t, n, r1) && FieldThen(r1, p, r2) && FieldThen(r2, d, m)
  {
  }

  /** What is printed for a record is read as that record. */
  lemma ParseLine(g: Group)
    requires Writable(g)
    ensures Parse(Line(g)) == Rec(g)
  {
    hide *;
    LineIs(g);
    DecRead(g.gid);
    ParseFields(g, Dec(g.gid));
  }

  lemma LineIs(g: Group)
    requires Writable(g)
    ensures Line(g) == g.name + ":" + g.passwd + ":" + Dec(g.gid) + ":" + JoinMembers(g.mem)
    ensures g.name != "" && IsField(g.name) && IsField(g.passwd) && g.gid < WORD && AllMembers(g.mem)
  {
    hide Dec, JoinMembers, IsField, AllMembers;
  }

  lemma ParseAt(t: string, c1: nat, c2: nat, x: nat, e: nat, m: string, mem: seq<string>)
    requires t != "" && FindColon(t, 1) == Some(c1) && FindColon(t, c1 + 1) == Some(c2)
    requires Atou(t, c2 + 1, 0) == Some((x, e)) && t[e] == ':' && t[e + 1..] == m
    requires (if m == "" then Some([]) else Members(m, 0, 0)) == Some(mem)
    ensures Parse(t) == Rec(Group(t[..c1], t[c1 + 1..c2], x, mem))
  {
    hide FindColon, Atou, Members;
  }

  lemma MemberPart(mem: seq<string>)
    requires AllMembers(mem)
    ensures var m := JoinMembers(mem); (if m == "" then Some([]) else Members(m, 0, 0)) == Some(mem)
  {
    hide IsMember, AllMembers;
    if mem != [] {
      JoinHead(mem);
      var m := JoinMembers(mem);
      assert m[0..] == m;
      MembersBack(m, 0, 0, mem);
    }
  }

  // ---- reading in place

  predicate AllAt(s: seq<char>, starts: seq<nat>, xs: seq<string>) {
    |starts| == |xs| && forall i | 0 <= i < |xs| :: At(s, starts[i], xs[i])
  }

  lemma AllAtMore(s: seq<char>, s': seq<char>, starts: seq<nat>, xs: seq<string>)
    requires AllAt(s, starts, xs) && s <= s'
    ensures AllAt(s', starts, xs)
  {
    hide At;
    forall i | 0 <= i < |xs|
      ensures At(s', starts[i], xs[i])
    {
      AtMore(s, s', starts[i], xs[i]);
    }
  }

  /** One more member cut off, those before it still in place. */
  method CutOne(line: array<char>, t: string, i: nat, j: nat, ghost starts: seq<nat>, ghost done: seq<string>)
    requires Uncut(line, t, i) && i <= j < |t| && AllAt(line[..i], starts, done)
    modifies line
    ensures Uncut(line, t, j + 1) && AllAt(line[..j + 1], starts + [i], done + [t[i..j]])
    ensures line[..i] == old(line[..i])
  {
    hide At, NoNul;
    Cut(line, t, i, j);
    AllAtMore(line[..i], line[..j + 1], starts, done);
  }

  lemma MembersStep(m: string, start: nat, k: nat)
    requires start <= k < |m| && Members(m, start, k).Some?
    ensures m[k] == ',' ==> Members(m, k + 1, k + 2).Some? && k + 2 <= |m|
                            && Members(m, start, k).value == [m[start..k]] + Members(m, k + 1, k + 2).value
    ensures m[k] != ',' ==> Members(m, start, k) == Members(m, start, k + 1)
  {
  }

  lemma MembersLast(m: string, start: nat)
    requires start <= |m|
    ensures Members(m, start, |m|) == Some([m[start..]])
  {
  }

  /** The list of members cut in place; what is returned are their positions. */
  method CutMembers(line: array<char>, t: string, m0: nat) returns (starts: seq<nat>)
    requires Uncut(line, t, m0) && m0 < |t| && Members(t[m0..], 0, 0).Some?
    modifies line
    ensures AllAt(line[..], starts, Members(t[m0..], 0, 0).value)
    ensures line[..m0] == old(line[..m0])
  {
    hide At, AllAt, Uncut, Members, NoNul;
    ghost var m := t[m0..];
    ghost var all := Members(m, 0, 0).value;
    starts := [];
    ghost var done: seq<string> := [];
    var start, k := 0, 0;
    UncutFacts(line, t, m0);
    CharAt(line, t, m0, m0);
    NoneAt(line[..m0]);
    assert [] + all == all;
    while line[m0 + k] != NUL
      invariant 0 <= start <= k <= |m| && Uncut(line, t, m0 + start) && |t| < line.Length
      invariant Members(m, start, k).Some? && all == done + Members(m, start, k).value
      invariant AllAt(line[..m0 + start], starts, done) && line[..m0] == old(line[..m0])
      decreases |m| - k
    {
      CharAt(line, t, m0 + start, m0 + k);
      MembersStep(m, start, k);
      if line[m0 + k] == ',' {
        ghost var piece := t[m0 + start..m0 + k];
        assert piece == m[start..k];
        ghost var more := Members(m, k + 1, k + 2).value;
        CutOne(line, t, m0 + start, m0 + k, starts, done);
        assert done + ([piece] + more) == (done + [piece]) + more;
        starts := starts + [m0 + start];
        done := done + [piece];
        start := k + 1;
        k := k + 2;
      } else {
        k := k + 1;
      }
    }
    AtEnd(line, t, m0 + start, m0 + k);
    MembersLast(m, start);
    LastAt(line, t, m0 + start, starts, done);
    assert m[start..] == t[m0 + start..];
    starts := starts + [m0 + start];
  }

  lemma NoneAt(s: seq<char>)
    ensures AllAt(s, [], [])
  {
  }

  lemma LastAt(line: array<char>, t: string, i: nat, starts: seq<nat>, done: seq<string>)
    requires Uncut(line, t, i) && AllAt(line[..i], starts, done)
    ensures AllAt(line[..], starts + [i], done + [t[i..]])
  {
    hide At, Uncut;
    UncutFacts(line, t, i);
    AllAtMore(line[..i], line[..], starts, done);
    LastText(line, t, i);
  }

  /** One line read into the buffer and cut there: what it comes to. */
  method CutLine(line: array<char>, t: string) returns (r: Outcome<Group>)
    requires Uncut(line, t, 0) && !Parse(t).Wild?
    modifies line
    ensures r == Parse(t)
  {
    hide At, AllAt, Uncut, Members, NoNul, FindColon, Atou, CText, Parse;
    ParseSkips(t);
    var c1 := StrChr(line, t, 0, 1);
    if c1.None? {
      return Skip;
    }
    Cut(line, t, 0, c1.value);
    var s2 := c1.value + 1;
    ghost var front1 := line[..s2];
    var c2 := StrChr(line, t, s2, s2);
    if c2.None? {
      return Skip;
    }
    Cut(line, t, s2, c2.value);
    var s3 := c2.value + 1;
    ghost var front2 := line[..s3];
    AtMore(front1, front2, 0, t[0..c1.value]);
    r := CutNumber(line, t, c1.value, c2.value, front2);
  }

  /** The number, and what is behind it. */
  method CutNumber(line: array<char>, t: string, c1: nat, c2: nat, ghost front: seq<char>) returns (r: Outcome<Group>)
    requires t != "" && FindColon(t, 1) == Some(c1) && FindColon(t, c1 + 1) == Some(c2)
    requires Uncut(line, t, c2 + 1) && !Parse(t).Wild?
    requires front == line[..c2 + 1] && At(front, 0, t[..c1]) && At(front, c1 + 1, t[c1 + 1..c2])
    modifies line
    ensures r == Parse(t)
  {
    hide At, AllAt, Uncut, Members, NoNul, FindColon, Atou, CText, Parse;
    ParseSkips(t);
    var s3 := c2 + 1;
    var gid, e := ReadNumber(line, t, s3);
    CharAt(line, t, s3, e);
    if line[e] != ':' {
      return Skip;
    }
    Cut(line, t, s3, e);
    r := FinishLine(line, t, c1, c2, gid, e, front);
  }

  /** The lines that are of no use. */
  lemma ParseSkips(t: string)
    requires !Parse(t).Wild?
    ensures t != "" && (FindColon(t, 1).None? ==> Parse(t) == Skip)
    ensures FindColon(t, 1).Some? ==>
              var c1 := FindColon(t, 1).value;
              (FindColon(t, c1 + 1).None? ==> Parse(t) == Skip)
    ensures FindColon(t, 1).Some? && FindColon(t, FindColon(t, 1).value + 1).Some? ==>
              var c2 := FindColon(t, FindColon(t, 1).value + 1).value;
              Atou(t, c2 + 1, 0).Some? && (t[Atou(t, c2 + 1, 0).value.1] != ':' ==> Parse(t) == Skip)
  {
    hide FindColon, Atou, Members;
  }

  /** The members cut, and the record put together from the texts in the buffer. */
  method FinishLine(line: array<char>, t: string, c1: nat, c2: nat, gid: nat, e: nat, ghost front: seq<char>)
    returns (r: Outcome<Group>)
    requires FindColon(t, 1) == Some(c1) && FindColon(t, c1 + 1) == Some(c2) && Atou(t, c2 + 1, 0) == Some((gid, e))
    requires t != "" && t[e] == ':' && Uncut(line, t, e + 1) && !Parse(t).Wild?
    requires front <= line[..e + 1] && At(front, 0, t[..c1]) && At(front, c1 + 1, t[c1 + 1..c2])
    modifies line
    ensures r == Parse(t)
  {
    hide At, AllAt, Uncut, Members, NoNul, FindColon, Atou, CText;
    ghost var m := t[e + 1..];
    ParseMembers(t, c1, c2, gid, e);
    var starts: seq<nat> := [];
    CharAt(line, t, e + 1, e + 1);
    ghost var before := line[..e + 1];
    if line[e + 1] != NUL {
      starts := CutMembers(line, t, e + 1);
    } else {
      NoneAt(line[..]);
    }
    assert front <= before == line[..e + 1] <= line[..];
    var mem := Strings(line, starts, if m == "" then [] else Members(m, 0, 0).value);
    ReadText(line, front, 0, t[..c1]);
    ReadText(line, front, c1 + 1, t[c1 + 1..c2]);
    r := Rec(Group(CText(line[0..]), CText(line[c1 + 1..]), gid, mem));
  }

  lemma ParseMembers(t: string, c1: nat, c2: nat, x: nat, e: nat)
    requires t != "" && FindColon(t, 1) == Some(c1) && FindColon(t, c1 + 1) == Some(c2)
    requires Atou(t, c2 + 1, 0) == Some((x, e)) && t[e] == ':' && !Parse(t).Wild?
    ensures var m := t[e + 1..];
            && (m != "" ==> Members(m, 0, 0).Some?)
            && Parse(t) == Rec(Group(t[..c1], t[c1 + 1..c2], x, if m == "" then [] else Members(m, 0, 0).value))
  {
    hide FindColon, Atou, Members;
  }

  /** The texts at the positions found. */
  method Strings(line: array<char>, starts: seq<nat>, ghost xs: seq<string>) returns (r: seq<string>)
    requires AllAt(line[..], starts, xs)
    ensures r == xs
  {
    hide At, CText;
    r := [];
    for i := 0 to |starts|
      invariant r == xs[..i]
    {
      TextIs(line[..], starts[i], xs[i]);
      AtBounds(line[..], starts[i], xs[i]);
      r := r + [CText(line[starts[i]..])];
      assert line[starts[i]..] == line[..][starts[i]..];
    }
  }

  // ---- files of records

  /** The reading loop: line after line until one is a record. */
  method GetGroup(text: string) returns (r: Reading<Group>)
    requires NoNul(text) && !Next(Parse, text).Broken?
    ensures r == Next(Parse, text)
  {
    hide LineLen, Parse;
    var rest := text;
    while rest != ""
      invariant NoNul(rest) && Next(Parse, rest) == Next(Parse, text)
      decreases |rest|
    {
      var line, l := GetLine(rest);
      var res := CutLine(line, FirstLine(rest));
      rest := rest[l..];
      if res.Rec? {
        return Got(res.value, rest);
      }
    }
    return End;
  }

  lemma {:induction false} MembersOneLine(mem: seq<string>)
    requires AllMembers(mem)
    ensures OneLine(JoinMembers(mem))
  {
    if mem != [] {
      assert IsMember(mem[0]);
      JoinHead(mem);
      if |mem| > 1 {
        MembersOneLine(mem[1..]);
        hide JoinMembers;
        OneLineJoin(mem[0], ",");
        OneLineJoin(mem[0] + ",", JoinMembers(mem[1..]));
      }
    }
  }

  lemma LineOneLine(g: Group)
    requires Writable(g)
    ensures OneLine(Line(g))
  {
    hide Dec, JoinMembers, IsMember;
    DecWeight(g.gid);
    MembersOneLine(g.mem);
    OneLineJoin(g.name, ":");
    OneLineJoin(g.name + ":", g.passwd);
    OneLineJoin(g.name + ":" + g.passwd, ":");
    OneLineJoin(g.name + ":" + g.passwd + ":", Dec(g.gid));
    OneLineJoin(g.name + ":" + g.passwd + ":" + Dec(g.gid), ":");
    OneLineJoin(g.name + ":" + g.passwd + ":" + Dec(g.gid) + ":", JoinMembers(g.mem));
  }

  /** A file of printed records is read back as those records. */
  lemma ReadBack(xs: seq<Group>)
    requires forall i | 0 <= i < |xs| :: Writable(xs[i])
    ensures ReadAll(Parse, Printed(Line, xs)) == Some(xs)
  {
    hide Parse, Line, Writable, ReadAll, Printed;
    forall i | 0 <= i < |xs|
      ensures Readable(Parse, Line, xs[i])
    {
      LineOneLine(xs[i]);
      ParseLine(xs[i]);
    }
    FileBack(Parse, Line, xs);
  }
}
