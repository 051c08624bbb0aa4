// The interpreter line of a script, cut into its words in the buffer it was read into.
module Hashbang {
  import opened Wrappers
  import opened CStrings
  import L = LoaderArgs

  predicate IsBlank(c: char) {
    c == ' ' || c == '\t'
  }

  predicate EndsWord(c: char) {
    c == NUL || c == '\n' || IsBlank(c)
  }

  /** The number of blanks at the front. */
  function Blanks(s: seq<char>): (n: nat)
    ensures n <= |s| && (n < |s| ==> !IsBlank(s[n]))
  {
    if s != [] && IsBlank(s[0]) then 1 + Blanks(s[1..]) else 0
  }

  /** The word at the front: up to a blank, the end of the line or a NUL. */
  function Word(s: seq<char>): (w: seq<char>)
    ensures w <= s && (|w| < |s| ==> EndsWord(s[|w|]))
    ensures forall i | 0 <= i < |w| :: !EndsWord(w[i])
  {
    if s == [] || EndsWord(s[0]) then [] else [s[0]] + Word(s[1..])
  }

  /** The interpreter and, behind a blank, its one argument, which may be empty. */
  datatype Line = Line(interp: string, arg: Option<string>)

  /** The words of an interpreter line, "#!" taken off. */
  function Parse(s: seq<char>): Line {
    var t := s[Blanks(s)..];
    var interp := Word(t);
    var u := t[|interp|..];
    if u != [] && IsBlank(u[0]) then Line(interp, Some(Word(u[Blanks(u)..]))) else Line(interp, None)
  }

  /** The words as they stand in the buffer, each with a NUL behind it. */
  function Cut(l: Line): seq<char> {
    l.interp + [NUL] + (if l.arg.Some? then l.arg.value + [NUL] else [])
  }

  /** Copy the word at the front of the rest down to d: nothing of what is still to be read is overwritten. */
  method CopyWord(buf: array<char>, d0: nat, s0: nat, end: nat, ghost rest: seq<char>) returns (d: nat, s: nat)
    requires d0 < s0 <= end < buf.Length && buf[end] == NUL && rest == buf[s0..end]
    modifies buf
    ensures d == d0 + |Word(rest)| + 1 && s == s0 + |Word(rest)| && buf[d0..d] == Word(rest) + [NUL]
    ensures s <= end && d <= s && buf[s..end] == rest[|Word(rest)|..] && buf[end] == NUL
    ensures buf[..d0] == old(buf[..d0])
  {
    hide Word, EndsWord;
    NulEndsWord();
    d, s := d0, s0;
    while !EndsWord(buf[s])
      invariant s0 <= s <= end && d - d0 == s - s0 && buf[..d0] == old(buf[..d0])
      invariant buf[s..end] == rest[s - s0..] && buf[end] == NUL
      invariant buf[d0..d] == rest[..s - s0] && forall i | 0 <= i < s - s0 :: !EndsWord(rest[i])
      decreases end - s
    {
      NextChar(buf, rest, s0, s, end);
      buf[d] := buf[s];
      d, s := d + 1, s + 1;
    }
    if s < end {
      NextChar(buf, rest, s0, s, end);
    }
    WordIs(rest, s - s0);
    buf[d] := NUL;
    d := d + 1;
    assert buf[d0..d] == buf[d0..d - 1] + [NUL];
  }

  lemma NulEndsWord()
    ensures EndsWord(NUL)
  {
  }

  lemma NextChar(buf: array<char>, rest: seq<char>, s0: nat, s: nat, end: nat)
    requires s0 <= s < end < buf.Length && |rest| == end - s0 && buf[s..end] == rest[s - s0..]
    ensures buf[s] == rest[s - s0] && buf[s + 1..end] == rest[s + 1 - s0..]
  {
    assert buf[s..end][0] == rest[s - s0..][0];
    assert buf[s..end][1..] == buf[s + 1..end] && rest[s - s0..][1..] == rest[s + 1 - s0..];
  }

  lemma {:induction false} WordIs(s: seq<char>, n: nat)
    requires n <= |s| && (n < |s| ==> EndsWord(s[n])) && forall i | 0 <= i < n :: !EndsWord(s[i])
    ensures Word(s) == s[..n]
    decreases n
  {
    if n > 0 {
      WordIs(s[1..], n - 1);
      assert [s[0]] + s[1..][..n - 1] == s[..n];
    }
  }

  /** Cut the interpreter line, "#!" at `offset`, the text up to `end`: fewer characters are written than
      have been read at any time. */
  method CutLine(buf: array<char>, offset: nat, end: nat) returns (ret: nat)
    requires offset + 2 <= end < buf.Length && buf[end] == NUL
    modifies buf
    ensures var c := Cut(Parse(old(buf[offset + 2..end])));
            offset + |c| <= end && buf[offset..offset + |c|] == c && ret == |c| - 1
    ensures buf[..offset] == old(buf[..offset])
  {
    hide Word, Blanks, EndsWord, IsBlank, Parse, Cut;
    ghost var text := buf[offset + 2..end];
    var s := SkipBlanks(buf, offset + 2, end, text);
    var d := offset;
    ghost var t := buf[s..end];
    d, s := CopyWord(buf, d, s, end, t);
    ret := CutTail(buf, offset, d, s, end, text, t, buf[s..end]);
  }

  /** What is behind the interpreter. */
  method CutTail(buf: array<char>, offset: nat, d0: nat, s: nat, end: nat, ghost text: seq<char>, ghost t: seq<char>,
                 ghost u: seq<char>)
    returns (ret: nat)
    requires offset < d0 <= s <= end < buf.Length && buf[end] == NUL && buf[offset..d0] == Word(t) + [NUL]
    requires t == text[Blanks(text)..] && u == t[|Word(t)|..] == buf[s..end]
    modifies buf
    ensures var c := Cut(Parse(text)); offset + |c| <= end && buf[offset..offset + |c|] == c && ret == |c| - 1
    ensures buf[..offset] == old(buf[..offset])
  {
    hide Word, Blanks, EndsWord, IsBlank, Parse, Cut;
    ParseIs(text, t, u);
    FirstChar(buf, s, end);
    NulIsNoBlank();
    var d := d0;
    if IsBlank(buf[s]) {
      d := CutArg(buf, offset, d, s, end, Word(t), u);
    }
    ret := d - offset - 1;
  }

  lemma FirstChar(buf: array<char>, s: nat, end: nat)
    requires s <= end < buf.Length
    ensures s < end ==> buf[s..end] != [] && buf[s] == buf[s..end][0]
    ensures s == end ==> buf[s..end] == []
  {
  }

  lemma NulIsNoBlank()
    ensures !IsBlank(NUL)
  {
  }

  lemma ParseIs(text: seq<char>, t: seq<char>, u: seq<char>)
    requires t == text[Blanks(text)..] && u == t[|Word(t)|..]
    ensures u != [] && IsBlank(u[0]) ==> Cut(Parse(text)) == Word(t) + [NUL] + (Word(u[Blanks(u)..]) + [NUL])
    ensures u == [] || !IsBlank(u[0]) ==> Cut(Parse(text)) == Word(t) + [NUL]
  {
    hide Word, Blanks, EndsWord, IsBlank;
  }

  /** The argument behind the interpreter. */
  method CutArg(buf: array<char>, offset: nat, d0: nat, s0: nat, end: nat, ghost interp: seq<char>, ghost u: seq<char>)
    returns (d: nat)
    requires offset <= d0 <= s0 < end < buf.Length && buf[end] == NUL && IsBlank(buf[s0]) && u == buf[s0..end]
    requires buf[offset..d0] == interp + [NUL]
    modifies buf
    ensures var arg := Word(u[Blanks(u)..]);
            d == d0 + |arg| + 1 && d <= end && buf[offset..d] == interp + [NUL] + (arg + [NUL])
    ensures buf[..offset] == old(buf[..offset])
  {
    hide Word, Blanks, EndsWord;
    var s := SkipBlanks(buf, s0, end, u);
    BlankFirst(u);
    ghost var front := buf[..d0];
    assert front[offset..] == interp + [NUL];
    FrontKept(buf[..], front, offset);
    d, s := CopyWord(buf, d0, s, end, buf[s..end]);
    FrontKept(buf[..], front, offset);
    Behind(buf[..], front, offset, d);
  }

  lemma FrontKept(s: seq<char>, front: seq<char>, offset: nat)
    requires offset <= |front| <= |s| && s[..|front|] == front
    ensures s[..offset] == front[..offset]
  {
    assert s[..|front|][..offset] == s[..offset];
  }

  lemma Behind(s: seq<char>, front: seq<char>, offset: nat, d: nat)
    requires offset <= |front| <= d <= |s| && s[..|front|] == front
    ensures s[offset..d] == front[offset..] + s[|front|..d]
  {
    assert s[offset..|front|] == front[offset..];
  }

  lemma BlankFirst(s: seq<char>)
    ensures s != [] && IsBlank(s[0]) ==> Blanks(s) > 0
  {
  }

  method SkipBlanks(buf: array<char>, s0: nat, end: nat, ghost rest: seq<char>) returns (s: nat)
    requires s0 <= end < buf.Length && buf[end] == NUL && rest == buf[s0..end]
    ensures s == s0 + Blanks(rest) && s <= end && buf[s..end] == rest[Blanks(rest)..]
  {
    s := s0;
    while IsBlank(buf[s])
      invariant s0 <= s <= end && Blanks(rest) == s - s0 + Blanks(buf[s..end])
      decreases end - s
    {
      assert buf[s..end][1..] == buf[s + 1..end];
      s := s + 1;
    }
    assert s < end ==> buf[s] == buf[s..end][0];
  }

  // ---- the arguments a script is run with

  /** What read leaves of a file in a buffer with room for so many characters. */
  function ReadUpTo(content: seq<char>, room: nat): seq<char> {
    if |content| <= room then content else content[..room]
  }

  /** The interpreter of a script, its argument if there is one, and the script; for an empty file the
      shell. None for a file that is no script. */
  function ScriptArgs(content: seq<char>, room: nat, path: string): Option<seq<string>> {
    var t := ReadUpTo(content, room);
    if content == [] then
      Some(["/bin/sh", path])
    else if |t| < 2 || t[0] != '#' || t[1] != '!' then
      None
    else
      var l := Parse(t[2..]);
      if l.interp == [] then None
      else Some([l.interp] + (if l.arg.Some? && l.arg.value != [] then [l.arg.value] else []) + [path])
  }

  // ---- what a line made of words comes to

  predicate AllBlank(s: string) {
    forall i | 0 <= i < |s| :: s[i] == ' ' || s[i] == '\t'
  }

  predicate OneWord(s: string) {
    forall i | 0 <= i < |s| :: s[i] !in " \t\n\0"
  }

  lemma {:induction false} BlanksAre(b: string, s: seq<char>)
    requires AllBlank(b) && (s != [] ==> s[0] != ' ' && s[0] != '\t')
    ensures Blanks(b + s) == |b|
    decreases |b|
  {
    if b == "" {
      assert b + s == s;
    } else {
      assert (b + s)[1..] == b[1..] + s;
      BlanksAre(b[1..], s);
    }
  }

  lemma WordAre(w: string, s: seq<char>)
    requires OneWord(w) && (s != [] ==> s[0] in " \t\n\0")
    ensures Word(w + s) == w && (w + s)[|w|..] == s
  {
    WordIs(w + s, |w|);
  }

  /** Blanks, a word, blanks, a word, whatever follows it: the interpreter and its argument; without blanks
      behind the interpreter there is no argument, and what follows a second word does not matter. */
  lemma LineOf(b: string, w: string, c: string, v: string, rest: seq<char>)
    requires AllBlank(b) && OneWord(w) && w != "" && AllBlank(c) && OneWord(v)
    requires rest != [] ==> rest[0] in " \t\n\0"
    requires (c == "" ==> v == "") && (v == "" && rest != [] ==> rest[0] in "\n\0")
    ensures Parse(b + (w + (c + (v + rest)))) == Line(w, if c == "" then None else Some(v))
  {
    hide Blanks, Word;
    var r := v + rest;
    BlanksAre(b, w + (c + r));
    assert (b + (w + (c + r)))[|b|..] == w + (c + r);
    if c == "" {
      assert v + rest == rest && c + r == rest;
    }
    WordAre(w, c + r);
    if c != "" {
      BlanksAre(c, r);
      assert (c + r)[|c|..] == r;
      WordAre(v, rest);
    }
  }

  /** A script that starts with such a line is run as interpreter, argument, script. */
  lemma ScriptOf(line: string, b: string, w: string, c: string, v: string, rest: seq<char>, room: nat, path: string)
    requires line == b + (w + (c + (v + rest))) && 2 + |line| <= room
    requires AllBlank(b) && OneWord(w) && w != "" && AllBlank(c) && OneWord(v)
    requires rest != [] ==> rest[0] in " \t\n\0"
    requires (c == "" ==> v == "") && (v == "" && rest != [] ==> rest[0] in "\n\0")
    ensures ScriptArgs("#!" + line, room, path) == Some(if v == "" then [w, path] else [w, v, path])
  {
    LineOf(b, w, c, v, rest);
    hide *;
    WordsRun(line, w, if c == "" then None else Some(v), room, path);
  }

  lemma WordsRun(line: seq<char>, w: string, arg: Option<string>, room: nat, path: string)
    requires 2 + |line| <= room && Parse(line) == Line(w, arg) && w != ""
    ensures ScriptArgs("#!" + line, room, path)
         == Some(if arg.None? || arg.value == "" then [w, path] else [w, arg.value, path])
  {
    hide *;
    ScriptIs(line, Line(w, arg), room, path);
    if arg.None? || arg.value == "" {
      assert [w] + [] + [path] == [w, path];
    } else {
      assert [w] + [arg.value] + [path] == [w, arg.value, path];
    }
  }

  lemma ScriptIs(line: seq<char>, l: Line, room: nat, path: string)
    requires 2 + |line| <= room && l == Parse(line) && l.interp != []
    ensures ScriptArgs("#!" + line, room, path)
         == Some([l.interp] + (if l.arg.Some? && l.arg.value != [] then [l.arg.value] else []) + [path])
  {
    hide Parse;
    assert ("#!" + line)[2..] == line;
  }

  /** Nothing but blanks before the end of the line. */
  predicate BlankUpTo(s: seq<char>, n: nat) {
    n <= |s| && AllBlank(s[..n]) && (n < |s| ==> s[n] == '\n' || s[n] == NUL)
  }

  lemma {:induction false} BlanksUpTo(s: seq<char>)
    ensures AllBlank(s[..Blanks(s)])
  {
    if s != [] && IsBlank(s[0]) {
      BlanksUpTo(s[1..]);
      assert s[..Blanks(s)] == [s[0]] + s[1..][..Blanks(s[1..])];
    }
  }

  lemma NoWord(s: seq<char>)
    ensures Parse(s).interp == [] <==> exists n: nat :: BlankUpTo(s, n)
  {
    hide Blanks;
    BlanksUpTo(s);
    if Parse(s).interp == [] {
      assert BlankUpTo(s, Blanks(s));
    }
    forall n: nat | BlankUpTo(s, n)
      ensures Parse(s).interp == []
    {
      assert s[..n] + s[n..] == s;
      BlanksAre(s[..n], s[n..]);
    }
  }

  /** An empty file is run by the shell. Any other is no script exactly if what is read of it does not start
      with "#!", or nothing but blanks follow before the end of the line or of what is read. */
  lemma NoScript(content: seq<char>, room: nat, path: string)
    ensures content == [] ==> ScriptArgs(content, room, path) == Some(["/bin/sh", path])
    ensures var t := if |content| <= room then content else content[..room];
            ScriptArgs(content, room, path).None? <==>
              content != [] && (!("#!" <= t) || exists n: nat :: BlankUpTo(t[2..], n))
  {
    hide Parse, BlankUpTo;
    var t := ReadUpTo(content, room);
    if "#!" <= t {
      NoWord(t[2..]);
    }
  }

  lemma ParseNoNul(s: seq<char>)
    ensures NoNul(Parse(s).interp) && (Parse(s).arg.Some? ==> NoNul(Parse(s).arg.value))
    ensures Parse(s).arg.Some? ==> Parse(s).interp != []
  {
    hide Blanks;
    var t := s[Blanks(s)..];
    var u := t[|Word(t)|..];
    WordNoNul(t);
    WordNoNul(u[Blanks(u)..]);
  }

  lemma WordNoNul(s: seq<char>)
    ensures NoNul(Word(s))
  {
  }

  lemma TextThen(w: string, more: seq<char>, s: seq<char>)
    requires NoNul(w) && |w| < |s| && s[..|w| + 1] == w + [NUL]
    ensures CText(s) == w
  {
    assert s[..|w|] == s[..|w| + 1][..|w|] == w;
    assert s[|w|] == s[..|w| + 1][|w|];
    CTextIs(s, |w|);
  }

  /** Read a file into the buffer. */
  method ReadFile(content: seq<char>, buf: array<char>, offset: nat) returns (end: nat)
    requires offset < buf.Length
    modifies buf
    ensures var t := ReadUpTo(content, buf.Length - offset - 1);
            end == offset + |t| && end < buf.Length && buf[offset..end] == t && buf[end] == NUL
  {
    var n := if |content| <= buf.Length - offset - 1 then |content| else buf.Length - offset - 1;
    var i := 0;
    while i < n
      invariant 0 <= i <= n && buf[offset..offset + i] == content[..i]
    {
      buf[offset + i] := content[i];
      i := i + 1;
    }
    end := offset + n;
    buf[end] := NUL;
  }

  /** The interpreter, its argument and the script, read from the buffer the script was cut in. */
  method ScriptVector(buf: array<char>, offset: nat, siz: nat, path: string, ghost l: Line) returns (args: seq<string>)
    requires NoNul(l.interp) && (l.arg.Some? ==> NoNul(l.arg.value)) && siz == |Cut(l)| - 1
    requires offset + |Cut(l)| <= buf.Length && buf[offset..offset + |Cut(l)|] == Cut(l)
    ensures args == [l.interp] + (if l.arg.Some? && l.arg.value != [] then [l.arg.value] else []) + [path]
  {
    ghost var cut := Cut(l);
    assert buf[offset..][..|cut|] == cut;
    assert buf[offset..][..|l.interp| + 1] == cut[..|l.interp| + 1] == l.interp + [NUL];
    TextThen(l.interp, [], buf[offset..]);
    var interp := CText(buf[offset..]);
    var len := |interp|;
    args := [interp];
    if len < siz {
      var at := offset + len + 1;
      ghost var w := l.arg.value;
      assert buf[at..][..|w| + 1] == cut[len + 1..] == w + [NUL];
      TextThen(w, [], buf[at..]);
      assert buf[at] == buf[at..][..|w| + 1][0];
      if buf[at] != NUL {
        args := args + [CText(buf[at..])];
      }
    }
    args := args + [path];
  }

  /** __interpreter_script: the arguments a file is run with, if it is a script. */
  method InterpreterScript(content: seq<char>, path: string, buf: array<char>, offset: nat)
    returns (args: Option<seq<string>>)
    requires offset + 8 < buf.Length
    modifies buf
    ensures args == ScriptArgs(content, buf.Length - offset - 1, path)
  {
    hide Parse, Cut, NoNul;
    if |content| == 0 {
      return Some(["/bin/sh", path]);
    }
    var end := ReadFile(content, buf, offset);
    ghost var t := ReadUpTo(content, buf.Length - offset - 1);
    if end - offset < 2 || buf[offset] != '#' || buf[offset + 1] != '!' {
      assert |t| >= 2 ==> buf[offset] == t[0] && buf[offset + 1] == t[1];
      return None;
    }
    assert buf[offset] == t[0] && buf[offset + 1] == t[1];
    assert buf[offset + 2..end] == t[2..];
    ghost var l := Parse(t[2..]);
    ParseNoNul(t[2..]);
    CutSize(l);
    var siz := CutLine(buf, offset, end);
    if siz < 1 {
      return None;
    }
    var v := ScriptVector(buf, offset, siz, path, l);
    return Some(v);
  }

  lemma CutSize(l: Line)
    requires l.arg.Some? ==> l.interp != []
    ensures |Cut(l)| >= 1 && (|Cut(l)| == 1 <==> l.interp == [])
  {
  }

  // ---- from a file to the vector handed to the kernel

  /** The arguments a file is run with: for a script its interpreter, the argument if there is one, and
      the path the script was called by; else the name the program was called by. */
  function FileArgs(content: seq<char>, room: nat, path: string, given: seq<string>): (args: seq<string>)
    requires given != []
    ensures 0 < |args| <= 3
  {
    match ScriptArgs(content, room, path)
    case Some(args) => args
    case None => [given[0]]
  }

  /** The whole command: the loader with its options; the program that is run, which for a script is its
      interpreter; the interpreter's argument if it has one and the script under the path it was called
      by; and the caller's arguments but the first. */
  function Command(content: seq<char>, room: nat, path: string, program: string, resolve: string -> string,
                   l: L.Loader, v: L.Values, given: seq<string>): seq<string>
    requires given != []
  {
    match ScriptArgs(content, room, path)
    case Some(args) =>
      L.Front(l, v, args[0]) + [resolve(args[0])] + args[1..|args| - 1] + [path] + given[1..]
    case None =>
      L.Front(l, v, given[0]) + [program] + given[1..]
  }

  /** execve from the program it found to the vector it hands on: the file is read for a "#!" line, the
      vector made, rewritten in place for the loader, and joined with the caller's. */
  method RunProgram(content: seq<char>, path: string, program: string, resolve: string -> string, buf: array<char>,
                    offset: nat, l: L.Loader, v: L.Values, argv: array<Option<string>>, ghost given: seq<string>)
    returns (nargv: array?<Option<string>>, vars: seq<L.Setting>)
    requires offset + 8 < buf.Length && L.Vector(argv[..], given) && given != []
    requires l.base <= 1 && (l.base == 1 || L.Shift(l, v) == 0)
    modifies buf
    ensures var cmd := Command(content, buf.Length - offset - 1, path, program, resolve, l, v, given);
            && (nargv == null <==> |cmd| + 1 >= L.ARG_MAX)
            && (nargv != null ==> L.Vector(nargv[..], cmd))
    ensures vars == L.Variables(l, v, FileArgs(content, buf.Length - offset - 1, path, given)[0])
  {
    hide ScriptArgs, L.Rewritten, L.Shift, L.Variables, L.Front, L.Vector;
    ghost var room := buf.Length - offset - 1;
    VectorFirst(argv[..], given);
    var interparg := new Option<string>[L.SLOTS](i => None);
    var args, start := [argv[0].value], program;
    var script := InterpreterScript(content, program, buf, offset);
    ScriptPath(content, room, program, path);
    if script.Some? {
      args := script.value[..|script.value| - 1] + [path];
      start := resolve(script.value[0]);
    }
    ghost var all := FileArgs(content, room, path, given);
    FillArgs(interparg, args);
    var n;
    n, vars := L.LdsoArgs(interparg, l, v, start, all);
    nargv := L.ExecArgs(interparg, argv, L.Rewritten(l, v, all, start), given);
    CommandIs(content, room, path, program, resolve, l, v, given);
    assert |L.Rewritten(l, v, all, start) + given[1..]| == |L.Rewritten(l, v, all, start)| + |given| - 1;
  }

  lemma VectorFirst(v: seq<Option<string>>, given: seq<string>)
    requires L.Vector(v, given) && given != []
    ensures |v| > 0 && v[0] == Some(given[0])
  {
  }

  /** The path of a script is the last of its arguments, and has nothing to do with the others. */
  lemma ScriptPath(content: seq<char>, room: nat, p: string, q: string)
    ensures ScriptArgs(content, room, p).Some? <==> ScriptArgs(content, room, q).Some?
    ensures ScriptArgs(content, room, p).Some? ==>
              var a := ScriptArgs(content, room, p).value; var b := ScriptArgs(content, room, q).value;
              2 <= |a| <= 3 && b == a[..|a| - 1] + [q] && b[0] == a[0] && |b| == |a| && b[|b| - 1] == q
  {
    hide Parse;
  }

  method FillArgs(interparg: array<Option<string>>, args: seq<string>)
    requires interparg.Length == L.SLOTS && |args| < L.SLOTS && forall i | 0 <= i < L.SLOTS :: interparg[i] == None
    modifies interparg
    ensures L.Vector(interparg[..], args)
  {
    var i := 0;
    while i < |args|
      invariant 0 <= i <= |args| && forall k | 0 <= k < i :: interparg[k] == Some(args[k])
      invariant forall k | i <= k < L.SLOTS :: interparg[k] == None
    {
      interparg[i] := Some(args[i]);
      i := i + 1;
    }
  }

  /** What the three steps make of the arguments is the command. */
  lemma CommandIs(content: seq<char>, room: nat, path: string, program: string, resolve: string -> string,
                  l: L.Loader, v: L.Values, given: seq<string>)
    requires given != []
    ensures var s := ScriptArgs(content, room, path);
            var all := FileArgs(content, room, path, given);
            var start := if s.Some? then resolve(s.value[0]) else program;
            && Command(content, room, path, program, resolve, l, v, given)
               == L.Rewritten(l, v, all, start) + given[1..]
  {
    hide L.Front, L.Shift, ScriptArgs;
    ScriptPath(content, room, path, path);
    var s := ScriptArgs(content, room, path);
    if s.Some? {
      var args := s.value;
      assert args[1..] == args[1..|args| - 1] + [path];
      Cat4(L.Front(l, v, args[0]) + [resolve(args[0])], args[1..|args| - 1], [path]);
    } else {
      var f := L.Front(l, v, given[0]) + [program];
      assert [given[0]][1..] == [] && f + [] == f;
    }
  }

  lemma Cat4(a: seq<string>, b: seq<string>, c: seq<string>)
    ensures a + (b + c) == a + b + c
  {
  }
}
