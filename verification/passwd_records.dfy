// Password records: printed as lines, and read back from lines cut in place.
module PasswdRecords {
  import opened Wrappers
  import opened CStrings
  import opened Decimals
  import opened RecordFields
  import opened RecordFiles

  datatype Passwd = Passwd(name: string, passwd: string, uid: nat, gid: nat, gecos: string, dir: string, shell: string)

  /** putpwent, without the end of the line. */
  function Line(p: Passwd): string {
    p.name + ":" + p.passwd + ":" + Dec(p.uid) + ":" + Dec(p.gid) + ":" + p.gecos + ":" + p.dir + ":" + p.shell
  }

  predicate Writable(p: Passwd) {
    && p.name != "" && IsField(p.name) && IsField(p.passwd) && p.uid < WORD && p.gid < WORD
    && IsField(p.gecos) && IsField(p.dir) && OneLine(p.shell) && NoNul(p.shell)
  }

  /** Where the fields of a line end. */
  datatype Ends = Ends(name: nat, passwd: nat, uid: nat, uidEnd: nat, gid: nat, gidEnd: nat, gecos: nat, dir: nat)

  datatype Found = Useless | Beyond | At8(ends: Ends)

  /** The ends of the texts behind the numbers. */
  function TextEnds(t: string, c1: nat, c2: nat, u: (nat, nat), g: (nat, nat)): Found {
    match FindColon(t, g.1 + 1)
    case None => Useless
    case Some(c5) =>
      match FindColon(t, c5 + 1)
      case None => Useless
      case Some(c6) => At8(Ends(c1, c2, u.0, u.1, g.0, g.1, c5, c6))
  }

  /** The end of the second number and of what is behind it. */
  function GidEnds(t: string, c1: nat, c2: nat, u: (nat, nat)): Found {
    match Atou(t, u.1 + 1, 0)
    case None => Beyond
    case Some(g) => if t[g.1] != ':' then Useless else TextEnds(t, c1, c2, u, g)
  }

  /** The end of the first number and of what is behind it. */
  function UidEnds(t: string, c1: nat, c2: nat): Found {
    match Atou(t, c2 + 1, 0)
    case None => Beyond
    case Some(u) => if t[u.1] != ':' then Useless else GidEnds(t, c1, c2, u)
  }

  function FieldEnds(t: string): Found {
    if t == "" then
      Beyond
    else
      match FindColon(t, 1)
      case None => Useless
      case Some(c1) =>
        match FindColon(t, c1 + 1)
        case None => Useless
        case Some(c2) => UidEnds(t, c1, c2)
  }

  predicate Inside(t: string, e: Ends) {
    e.name < e.passwd < e.uidEnd < e.gidEnd < e.gecos < e.dir < |t|
  }

  lemma EndsInside(t: string)
    ensures FieldEnds(t).At8? ==> Inside(t, FieldEnds(t).ends)
  {
    hide FindColon, Atou;
  }

  /** The record between the ends. */
  function Between(t: string, e: Ends): Passwd
    requires Inside(t, e)
  {
    Passwd(t[..e.name], t[e.name + 1..e.passwd], e.uid, e.gid, t[e.gidEnd + 1..e.gecos], t[e.gecos + 1..e.dir],
           t[e.dir + 1..])
  }

  function Parse(t: string): Outcome<Passwd> {
    EndsInside(t);
    match FieldEnds(t)
    case Useless => Skip
    case Beyond => Wild
    case At8(e) => Rec(Between(t, e))
  }

  /** A line of seven fields, the third and the fourth of digits, is read field by field. */
  lemma ParseFields(p: Passwd, u: string, g: string)
    requires p.name != "" && IsField(p.name) && IsField(p.passwd) && IsField(p.gecos) && IsField(p.dir)
    requires Reads(u, p.uid) && Reads(g, p.gid)
    ensures Parse(p.name + ":" + p.passwd + ":" + u + ":" + g + ":" + p.gecos + ":" + p.dir + ":" + p.shell) == Rec(p)
  {
    hide *;
    var t := p.name + ":" + p.passwd + ":" + u + ":" + g + ":" + p.gecos + ":" + p.dir + ":" + p.shell;
    var r5 := p.dir + ":" + p.shell;
    var r4 := p.gecos + ":" + r5;
    var r3 := g + ":" + r4;
    var r2 := u + ":" + r3;
    var r1 := p.passwd + ":" + r2;
    Parts(t, p.name, p.passwd, u, g, p.gecos, p.dir, p.shell, r1, r2, r3, r4, r5);
    var e := FieldsBack(t, p, u, g, r1, r2, r3, r4, r5);
    ParseAt(t, e, p);
  }

  /** What is printed for a record is read as that record. */
  lemma ParseLine(p: Passwd)
    requires Writable(p)
    ensures Parse(Line(p)) == Rec(p)
  {
    hide *;
    LineIs(p);
    DecRead(p.uid);
    DecRead(p.gid);
    ParseFields(p, Dec(p.uid), Dec(p.gid));
  }

  lemma LineIs(p: Passwd)
    requires Writable(p)
    ensures Line(p) == p.name + ":" + p.passwd + ":" + Dec(p.uid) + ":" + Dec(p.gid) + ":" + p.gecos + ":" + p.dir + ":"
                       + p.shell
    ensures p.name != "" && IsField(p.name) && IsField(p.passwd) && p.uid < WORD && p.gid < WORD
    ensures IsField(p.gecos) && IsField(p.dir)
  {
    hide Dec, IsField;
  }

  /** The ends e are those of t, and the record between them is p. */
  predicate EndsOf(t: string, e: Ends, p: Passwd) {
    FieldEnds(t) == At8(e) && Inside(t, e) && Between(t, e) == p
  }

  lemma ParseAt(t: string, e: Ends, p: Passwd)
    requires EndsOf(t, e, p)
    ensures Parse(t) == Rec(p)
  {
    hide FieldEnds, Between, Inside;
  }

  /** Field after field is found. */
  lemma FieldsBack(t: string, p: Passwd, u: string, g: string, r1: string, r2: string, r3: string, r4: string,
                   r5: string)
    returns (e: Ends)
    requires p.name != "" && IsField(p.name) && IsField(p.passwd) && Reads(u, p.uid) && Reads(g, p.gid)
    requires IsField(p.gecos) && IsField(p.dir)
    requires FieldThen(t, p.name, r1) && FieldThen(r1, p.passwd, r2) && FieldThen(r2, u, r3)
    requires FieldThen(r3, g, r4) && FieldThen(r4, p.gecos, r5) && FieldThen(r5, p.dir, p.shell)
    ensures EndsOf(t, e, p)
  {
    hide *;
    var c1, c2 := NamesBack(t, p.name, p.passwd, r1, r2);
    var e1, e2 := NumbersBack(t, c2 + 1, p.uid, u, p.gid, g, r2, r3, r4);
    var c5, c6 := TextsBack(t, e2 + 1, p.gecos, p.dir, p.shell, r4, r5);
    e := Ends(c1, c2, p.uid, e1, p.gid, e2, c5, c6);
    EndsAt(t, e);
    BetweenIs(t, e, p);
  }

  lemma NamesBack(t: string, n: string, p: string, r1: string, r2: string) returns (c1: nat, c2: nat)
    requires FieldThen(t, n, r1) && FieldThen(r1, p, r2) && n != "" && IsField(n) && IsField(p)
    ensures t != "" && FindColon(t, 1) == Some(c1) && FindColon(t, c1 + 1) == Some(c2) && c1 < c2 < |t|
    ensures t[..c1] == n && t[c1 + 1..c2] == p && FromOn(t, c2 + 1, r2)
  {
    hide *;
    FirstField(t, n, r1);
    c1 := |n|;
    NextField(t, c1 + 1, r1, p, r2);
    c2 := c1 + 1 + |p|;
  }

  lemma NumbersBack(t: string, i: nat, uid: nat, u: string, gid: nat, g: string, r2: string, r3: string, r4: string)
    returns (e1: nat, e2: nat)
    requires Reads(u, uid) && Reads(g, gid)
    requires FromOn(t, i, r2) && FieldThen(r2, u, r3) && FieldThen(r3, g, r4)
    ensures Atou(t, i, 0) == Some((uid, e1)) && e1 < |t| && t[e1] == ':'
    ensures Atou(t, e1 + 1, 0) == Some((gid, e2)) && e2 < |t| && t[e2] == ':' && FromOn(t, e2 + 1, r4)
  {
    hide *;
    NextNumber(t, i, r2, uid, u, r3);
    e1 := i + |u|;
    NextNumber(t, e1 + 1, r3, gid, g, r4);
    e2 := e1 + 1 + |g|;
  }

  lemma TextsBack(t: string, i: nat, e: string, d: string, s: string, r4: string, r5: string) returns (c5: nat, c6: nat)
    requires FromOn(t, i, r4) && FieldThen(r4, e, r5) && FieldThen(r5, d, s) && IsField(e) && IsField(d)
    ensures FindColon(t, i) == Some(c5) && FindColon(t, c5 + 1) == Some(c6) && i <= c5 < c6 < |t|
    ensures t[i..c5] == e && t[c5 + 1..c6] == d && t[c6 + 1..] == s
  {
    hide *;
    NextField(t, i, r4, e, r5);
    c5 := i + |e|;
    NextField(t, c5 + 1, r5, d, s);
    c6 := c5 + 1 + |d|;
    LastField(t, c6 + 1, s);
  }

  lemma BetweenIs(t: string, e: Ends, p: Passwd)
    requires FieldEnds(t) == At8(e) && Inside(t, e)
    requires t[..e.name] == p.name && t[e.name + 1..e.passwd] == p.passwd && e.uid == p.uid && e.gid == p.gid
    requires t[e.gidEnd + 1..e.gecos] == p.gecos && t[e.gecos + 1..e.dir] == p.dir && t[e.dir + 1..] == p.shell
    ensures EndsOf(t, e, p)
  {
    hide FieldEnds, Inside;
  }

  lemma Parts(t: string, n: string, p: string, u: string, g: string, e: string, d: string, s: string, r1: string,
              r2: string, r3: string, r4: string, r5: string)
    requires t == n + ":" + p + ":" + u + ":" + g + ":" + e + ":" + d + ":" + s
    requires r5 == d + ":" + s && r4 == e + ":" + r5 && r3 == g + ":" + r4 && r2 == u + ":" + r3 && r1 == p + ":" + r2
    ensures FieldThen(t, n, r1) && FieldThen(r1, p, r2) && FieldThen(r2, u, r3) && FieldThen(r3, g, r4)
    ensures FieldThen(r4, e, r5) && FieldThen(r5, d, s)
  {
  }

  lemma EndsAt(t: string, e: Ends)
    requires t != "" && FindColon(t, 1) == Some(e.name) && FindColon(t, e.name + 1) == Some(e.passwd)
    requires Atou(t, e.passwd + 1, 0) == Some((e.uid, e.uidEnd)) && t[e.uidEnd] == ':'
    requires Atou(t, e.uidEnd + 1, 0) == Some((e.gid, e.gidEnd)) && t[e.gidEnd] == ':'
    requires FindColon(t, e.gidEnd + 1) == Some(e.gecos) && FindColon(t, e.gecos + 1) == Some(e.dir)
    ensures FieldEnds(t) == At8(e) && Inside(t, e)
  {
    hide FindColon, Atou, Inside;
    assert TextEnds(t, e.name, e.passwd, (e.uid, e.uidEnd), (e.gid, e.gidEnd)) == At8(e);
    EndsInside(t);
  }

  /** One line read into the buffer and cut there: what it comes to. */
  method CutLine(line: array<char>, t: string) returns (r: Outcome<Passwd>)
    requires Uncut(line, t, 0) && !Parse(t).Wild?
    modifies line
    ensures r == Parse(t)
  {
    hide At, Uncut, NoNul, FindColon, Atou, CText, UidEnds, Between;
    var c1 := StrChr(line, t, 0, 1);
    if c1.None? {
      return Skip;
    }
    Cut(line, t, 0, c1.value);
    ghost var front1 := line[..c1.value + 1];
    var c2 := StrChr(line, t, c1.value + 1, c1.value + 1);
    if c2.None? {
      return Skip;
    }
    Cut(line, t, c1.value + 1, c2.value);
    ghost var front := line[..c2.value + 1];
    AtMore(front1, front, 0, t[0..c1.value]);
    r := CutNumbers(line, t, c1.value, c2.value, front);
  }

  method CutNumbers(line: array<char>, t: string, c1: nat, c2: nat, ghost front: seq<char>) returns (r: Outcome<Passwd>)
    requires FindColon(t, 1) == Some(c1) && FindColon(t, c1 + 1) == Some(c2) && t != ""
    requires Uncut(line, t, c2 + 1) && !Parse(t).Wild? && FieldEnds(t) == UidEnds(t, c1, c2)
    requires front == line[..c2 + 1] && At(front, 0, t[..c1]) && At(front, c1 + 1, t[c1 + 1..c2])
    modifies line
    ensures r == Parse(t)
  {
    hide At, Uncut, NoNul, FindColon, Atou, CText, Parse, FieldEnds, Between, TextEnds;
    ParseCases(t);
    var uid, e1 := ReadNumber(line, t, c2 + 1);
    CharAt(line, t, c2 + 1, e1);
    if line[e1] != ':' {
      return Skip;
    }
    Cut(line, t, c2 + 1, e1);
    var gid, e2 := ReadNumber(line, t, e1 + 1);
    CharAt(line, t, e1 + 1, e2);
    if line[e2] != ':' {
      return Skip;
    }
    Cut(line, t, e1 + 1, e2);
    r := CutTexts(line, t, c1, c2, uid, e1, gid, e2, front);
  }

  lemma ParseCases(t: string)
    ensures FieldEnds(t).Useless? ==> Parse(t) == Skip
    ensures FieldEnds(t).Beyond? ==> Parse(t) == Wild
    ensures FieldEnds(t).At8? ==> Inside(t, FieldEnds(t).ends) && Parse(t) == Rec(Between(t, FieldEnds(t).ends))
  {
    hide FieldEnds, Between;
    EndsInside(t);
  }

  method CutTexts(line: array<char>, t: string, c1: nat, c2: nat, uid: nat, e1: nat, gid: nat, e2: nat,
                  ghost front: seq<char>)
    returns (r: Outcome<Passwd>)
    requires c1 < c2 < e1 < e2 < |t| && Uncut(line, t, e2 + 1)
    requires FieldEnds(t) == TextEnds(t, c1, c2, (uid, e1), (gid, e2))
    requires front <= line[..e2 + 1] && At(front, 0, t[..c1]) && At(front, c1 + 1, t[c1 + 1..c2])
    modifies line
    ensures r == Parse(t)
  {
    hide At, Uncut, NoNul, FindColon, CText, Parse, FieldEnds, Between, TextEnds, LastEnds;
    LastCases(t, c1, c2, (uid, e1), (gid, e2));
    var c5 := StrChr(line, t, e2 + 1, e2 + 1);
    if c5.None? {
      return Skip;
    }
    Cut(line, t, e2 + 1, c5.value);
    r := CutLast(line, t, c1, c2, uid, e1, gid, e2, c5.value, front, line[..c5.value + 1]);
  }

  lemma LastCases(t: string, c1: nat, c2: nat, u: (nat, nat), g: (nat, nat))
    requires FieldEnds(t) == TextEnds(t, c1, c2, u, g)
    ensures FindColon(t, g.1 + 1).None? ==> Parse(t) == Skip
    ensures FindColon(t, g.1 + 1).Some? ==> LastEnds(t, c1, c2, u, g, FindColon(t, g.1 + 1).value)
  {
    hide FindColon, Between;
    ParseCases(t);
  }

  /** With the end of the fifth field known, what the rest comes to. */
  predicate LastEnds(t: string, c1: nat, c2: nat, u: (nat, nat), g: (nat, nat), c5: nat) {
    match FindColon(t, c5 + 1)
    case None => Parse(t) == Skip
    case Some(c6) =>
      var e := Ends(c1, c2, u.0, u.1, g.0, g.1, c5, c6);
      Inside(t, e) && Parse(t) == Rec(Between(t, e))
  }

  method CutLast(line: array<char>, t: string, c1: nat, c2: nat, uid: nat, e1: nat, gid: nat, e2: nat, c5: nat,
                 ghost front: seq<char>, ghost l1: seq<char>)
    returns (r: Outcome<Passwd>)
    requires Uncut(line, t, c5 + 1) && l1 == line[..c5 + 1] && front <= l1 && e2 < c5
    requires LastEnds(t, c1, c2, (uid, e1), (gid, e2), c5)
    requires c1 < c2 < e2 <= |t| && c5 < |t| && At(front, 0, t[..c1]) && At(front, c1 + 1, t[c1 + 1..c2])
    requires At(l1, e2 + 1, t[e2 + 1..c5])
    modifies line
    ensures r == Parse(t)
  {
    hide At, Uncut, NoNul, FindColon, CText, Parse, Between;
    var c6 := StrChr(line, t, c5 + 1, c5 + 1);
    if c6.None? {
      return Skip;
    }
    Cut(line, t, c5 + 1, c6.value);
    ghost var l2 := line[..c6.value + 1];
    LastText(line, t, c6.value + 1);
    var p := ReadTexts(line, t, Ends(c1, c2, uid, e1, gid, e2, c5, c6.value), front, l1, l2);
    return Rec(p);
  }

  /** The texts cut off, read from the whole line. */
  method ReadTexts(line: array<char>, t: string, e: Ends, ghost front: seq<char>, ghost l1: seq<char>,
                   ghost l2: seq<char>)
    returns (p: Passwd)
    requires Inside(t, e) && front <= l1 <= l2 <= line[..]
    requires At(front, 0, t[..e.name]) && At(front, e.name + 1, t[e.name + 1..e.passwd])
    requires At(l1, e.gidEnd + 1, t[e.gidEnd + 1..e.gecos]) && At(l2, e.gecos + 1, t[e.gecos + 1..e.dir])
    requires At(line[..], e.dir + 1, t[e.dir + 1..])
    ensures p == Between(t, e)
  {
    hide At, CText;
    Texts(line, l2, l1, front, t, e.name, e.passwd, e.gidEnd, e.gecos, e.dir);
    p := Passwd(CText(line[0..]), CText(line[e.name + 1..]), e.uid, e.gid, CText(line[e.gidEnd + 1..]),
                CText(line[e.gecos + 1..]), CText(line[e.dir + 1..]));
  }

  /** The texts cut off so far, read from the whole line. */
  lemma Texts(line: array<char>, l2: seq<char>, l1: seq<char>, front: seq<char>, t: string, c1: nat, c2: nat, e2: nat,
              c5: nat, c6: nat)
    requires c1 < c2 < e2 < c5 < c6 < |t| && front <= l1 <= l2 <= line[..]
    requires At(front, 0, t[..c1]) && At(front, c1 + 1, t[c1 + 1..c2])
    requires At(l1, e2 + 1, t[e2 + 1..c5]) && At(l2, c5 + 1, t[c5 + 1..c6]) && At(line[..], c6 + 1, t[c6 + 1..])
    ensures c6 + 1 < line.Length
    ensures CText(line[0..]) == t[..c1] && CText(line[c1 + 1..]) == t[c1 + 1..c2]
    ensures CText(line[e2 + 1..]) == t[e2 + 1..c5] && CText(line[c5 + 1..]) == t[c5 + 1..c6]
    ensures CText(line[c6 + 1..]) == t[c6 + 1..]
  {
    hide At, CText;
    AtBounds(line[..], c6 + 1, t[c6 + 1..]);
    ReadText(line, front, 0, t[..c1]);
    ReadText(line, front, c1 + 1, t[c1 + 1..c2]);
    ReadText(line, l1, e2 + 1, t[e2 + 1..c5]);
    ReadText(line, l2, c5 + 1, t[c5 + 1..c6]);
    ReadText(line, line[..], c6 + 1, t[c6 + 1..]);
  }

  // ---- files of records

  /** The reading loop: line after line until one is a record. */
  method GetPasswd(text: string) returns (r: Reading<Passwd>)
    requires NoNul(text) && !Next(Parse, text).Broken?
    ensures r == Next(Parse, text)
  {
    hide LineLen, Parse;
    var rest := text;
    while rest != ""
      invariant NoNul(rest) && Next(Parse, rest) == Next(Parse, text)
      decreases |rest|
    {
      var line, l := GetLine(rest);
      var res := CutLine(line, FirstLine(rest));
      rest := rest[l..];
      if res.Rec? {
        return Got(res.value, rest);
      }
    }
    return End;
  }

  lemma LineOneLine(p: Passwd)
    requires Writable(p)
    ensures OneLine(Line(p))
  {
    hide Dec;
    DecWeight(p.uid);
    DecWeight(p.gid);
    ghost var a := p.name + ":" + p.passwd + ":";
    ghost var b := p.gecos + ":" + p.dir + ":" + p.shell;
    assert OneLine(a) && OneLine(b) && OneLine(Dec(p.uid)) && OneLine(Dec(p.gid));
    OneLineFour(p, a, Dec(p.uid), Dec(p.gid), b);
  }

  lemma OneLineFour(p: Passwd, a: string, u: string, g: string, b: string)
    requires a == p.name + ":" + p.passwd + ":" && b == p.gecos + ":" + p.dir + ":" + p.shell
    requires u == Dec(p.uid) && g == Dec(p.gid) && OneLine(a) && OneLine(b) && OneLine(u) && OneLine(g)
    ensures OneLine(Line(p))
  {
    hide OneLine;
    OneLineJoin(a, u);
    OneLineColon(a + u);
    OneLineJoin(a + u + ":", g);
    OneLineColon(a + u + ":" + g);
    OneLineJoin(a + u + ":" + g + ":", b);
    assert a + u + ":" + g + ":" + b == Line(p);
  }

  lemma OneLineColon(a: string)
    requires OneLine(a)
    ensures OneLine(a + ":")
  {
  }

  /** putpwent: what is written is got back as the record, whatever stands behind it in the file. */
  method PutPasswd(p: Passwd) returns (out: string)
    ensures out == p.name + ":" + p.passwd + ":" + Dec(p.uid) + ":" + Dec(p.gid) + ":" + p.gecos + ":" + p.dir + ":"
                   + p.shell + "\n"
    ensures Writable(p) ==> forall rest :: Next(Parse, out + rest) == Got(p, rest)
  {
    hide Parse, Writable;
    out := p.name + ":" + p.passwd + ":" + Dec(p.uid) + ":" + Dec(p.gid) + ":" + p.gecos + ":" + p.dir + ":" + p.shell
           + "\n";
    if Writable(p) {
      LineOneLine(p);
      ParseLine(p);
      forall rest
        ensures Next(Parse, out + rest) == Got(p, rest)
      {
        NextPrinted(Parse, Line, p, rest);
      }
    }
  }

  /** A file of printed records is read back as those records. */
  lemma ReadBack(xs: seq<Passwd>)
    requires forall i | 0 <= i < |xs| :: Writable(xs[i])
    ensures ReadAll(Parse, Printed(Line, xs)) == Some(xs)
  {
    hide Parse, Line, Writable, ReadAll, Printed;
    forall i | 0 <= i < |xs|
      ensures Readable(Parse, Line, xs[i])
    {
      LineOneLine(xs[i]);
      ParseLine(xs[i]);
    }
    FileBack(Parse, Line, xs);
  }
}
