// The symlink resolver in place: a stack buffer filled from its end, an output buffer filled from
// its front.
module PathBuffers {
  import opened Limits
  import opened CStrings
  import opened PathText
  import opened PathDir
  import opened PathMachine
  import opened PathWalk
  import opened PathProps

  /** Link contents and the root directory are C strings. */
  ghost predicate TextEnv(env: Env) {
    && (forall p | env.link(p).Content? :: NoNul(env.link(p).text))
    && NoNul(env.root)
  }

  lemma PopPrefix(o: string)
    ensures |PopComp(o)| <= |o| && (NoNul(o) ==> NoNul(PopComp(o)))
  {
    hide CutToSlash;
  }

  lemma {:induction false} SkipNoNul(t: string)
    requires NoNul(t)
    ensures NoNul(SkipSlashes(t))
    decreases |t|
  {
    if t != "" && t[0] == '/' {
      SkipNoNul(t[1..]);
    }
  }

  lemma SliceSame(s: seq<char>, s': seq<char>, i: nat)
    requires |s| == |s'| == PATH_MAX + 1 && i <= PATH_MAX && s[i..] == s'[i..]
    ensures s[i..PATH_MAX] == s'[i..PATH_MAX] && s[PATH_MAX] == s'[PATH_MAX]
  {
    assert s[i..PATH_MAX] == s[i..][..PATH_MAX - i] && s[PATH_MAX] == s[i..][PATH_MAX - i];
  }

  /** What readlink leaves of a link is a C string again. */
  lemma LinkNoNul(env: Env, path: string, n: nat)
    requires TextEnv(env)
    ensures NoNul(env.root)
    ensures env.link(path).Content? ==> NoNul(env.link(path).text)
    ensures env.link(path).Content? && n <= |env.link(path).text| ==> NoNul(env.link(path).text[..n])
  {
  }

  lemma TextCut(s: seq<char>, text: string, p: nat, n: nat)
    requires |s| == PATH_MAX + 1 && p + n <= PATH_MAX && s[p..PATH_MAX] == text
    ensures s[p + n..PATH_MAX] == text[n..] && s[p..p + n] == text[..n]
  {
  }

  lemma LaidOut(s: seq<char>, out: string, text: string, p: nat, l: nat, n: nat)
    requires |s| == PATH_MAX + 1 && p + l + n <= PATH_MAX && s[p + l..PATH_MAX] == text
    ensures out + s[p..p + l + n] == (out + s[p..p + l]) + text[..n]
  {
  }

  lemma PathNoNul(out: string, text: string, n: nat)
    requires NoNul(out) && NoNul(text) && n <= |text|
    ensures NoNul(Sep(out) + text[..n]) && NoNul(text[n..])
  {
  }

  lemma TextHead(s: seq<char>, p: nat)
    requires |s| == PATH_MAX + 1 && p <= PATH_MAX && s[PATH_MAX] == NUL && NoNul(s[p..PATH_MAX])
    ensures s[p] == '/' <==> s[p..PATH_MAX] != "" && s[p..PATH_MAX][0] == '/'
  {
  }

  lemma ComponentStops(env: Env, st: State, n: nat)
    requires n <= |st.text| && Component(env, st, n).Halt?
    ensures !Component(env, st, n).r.Stopped?
  {
    hide Sep, Take, LookAt;
  }

  lemma RunHalt(env: Env, st: State)
    requires Fits(st) && Step(env, st).Halt?
    ensures Run(env, st) == Step(env, st).r
  {
    hide Step;
  }

  lemma MatchUps(st: State, at: Dir)
    requires Match(st, at)
    ensures |st.out| >= 3 * st.nup - 1
  {
    hide Render;
    RenderLen(at);
    RenderEnd(at);
    UpsLen(at.base);
  }

  lemma DotDot(x: string)
    ensures x == ".." <==> |x| == 2 && x[0] == '.' && x[1] == '.'
  {
  }

  lemma Prepended(s0: seq<char>, s1: seq<char>, s2: seq<char>, lr: nat, k: nat, p: nat)
    requires |s0| == |s1| == |s2| == PATH_MAX + 1 && lr + k <= p <= PATH_MAX
    requires s1[lr..lr + k] == s0[..k] && s1[lr + k..] == s0[lr + k..] && s2[lr..] == s1[lr..]
    ensures s2[..lr + k] == s2[..lr] + s0[..k] && s2[p..] == s0[p..]
  {
    assert s2[..lr + k] == s2[..lr] + s2[lr..][..k];
    assert s1[lr..lr + k] == s1[lr..][..k];
    assert s2[p..] == s2[lr..][p - lr..] == s1[p..];
    assert s1[p..] == s1[lr + k..][p - lr - k..] == s0[p..];
  }

  lemma JoinedAt(s: seq<char>, i: nat, k: nat, m: nat)
    requires i + k <= m <= |s|
    ensures s[i..m] == s[i..i + k] + s[i + k..m]
  {
  }

  datatype Turn = Going | Done(r: Result)

  class Resolver {
    const env: Env
    const stack: array<char>
    const output: array<char>
    var p: nat
    var q: nat
    var nup: nat
    var cnt: nat
    var checkDir: bool

    constructor (env: Env)
      ensures this.env == env && fresh(stack) && fresh(output) && Sized()
    {
      this.env := env;
      stack := new char[PATH_MAX + 1];
      output := new char[PATH_MAX];
      p, q, nup, cnt, checkDir := 0, 0, 0, 0, false;
    }

    predicate Sized() {
      stack.Length == PATH_MAX + 1 && output.Length == PATH_MAX && stack != output
    }

    ghost predicate Buffers()
      reads this, stack, output
    {
      && Sized() && p <= PATH_MAX && q < PATH_MAX && cnt < SYMLOOP_MAX
    }

    ghost predicate Valid()
      reads this, stack, output
    {
      && Buffers() && stack[PATH_MAX] == NUL && NoNul(stack[p..PATH_MAX]) && NoNul(output[..q])
    }

    /** What the buffers and indices stand for. */
    ghost function St(): State
      reads this, stack, output
      requires Valid()
    {
      State(stack[p..PATH_MAX], output[..q], nup, checkDir, cnt)
    }

    /** The number of slashes from position i of the stack. */
    method SlashLen(i: nat) returns (n: nat)
      requires Valid() && p <= i <= PATH_MAX
      ensures i + n <= PATH_MAX && stack[i + n..PATH_MAX] == SkipSlashes(stack[i..PATH_MAX])
      ensures stack[i + n] != '/'
    {
      n := 0;
      ghost var t := stack[i..PATH_MAX];
      while stack[i + n] == '/'
        invariant i + n <= PATH_MAX
        invariant SkipSlashes(stack[i + n..PATH_MAX]) == SkipSlashes(t)
        decreases PATH_MAX - i - n
      {
        assert stack[i + n..PATH_MAX][1..] == stack[i + n + 1..PATH_MAX];
        n := n + 1;
      }
      assert i + n < PATH_MAX ==> stack[i + n..PATH_MAX][0] != '/';
    }

    /** The length of the component on top of the stack. */
    method ComponentLen() returns (n: nat)
      requires Valid()
      ensures p + n <= PATH_MAX && n == PieceLen(stack[p..PATH_MAX])
    {
      n := 0;
      ghost var t := stack[p..PATH_MAX];
      while stack[p + n] != NUL && stack[p + n] != '/'
        invariant p + n <= PATH_MAX
        invariant PieceLen(t) == n + PieceLen(stack[p + n..PATH_MAX])
        decreases PATH_MAX - n
      {
        assert stack[p + n..PATH_MAX][1..] == stack[p + n + 1..PATH_MAX];
        n := n + 1;
      }
      if p + n < PATH_MAX {
        assert stack[p + n] == t[n];
        assert stack[p + n..PATH_MAX][0] == '/';
      }
    }

    /** Drop the slashes on top of the stack. */
    method Advance()
      requires Valid()
      modifies this`p
      ensures Valid() && p >= old(p)
      ensures stack[p..PATH_MAX] == SkipSlashes(old(stack[p..PATH_MAX])) && stack[p] != '/'
    {
      var n := SlashLen(p);
      assert stack[p + n..PATH_MAX] == stack[p..PATH_MAX][n..];
      p := p + n;
    }

    /** The stack starts with a slash: the output is reset to the root. */
    method TakeRoot()
      requires Valid() && p < PATH_MAX && stack[p] == '/'
      modifies this`p, this`q, this`nup, this`checkDir, output
      ensures Valid()
      ensures St() == State(SkipSlashes(old(St()).text[1..]), RenderBase(Lead(old(St()).text)), 0, false, cnt)
    {
      hide SkipSlashes;
      ghost var t := stack[p..PATH_MAX];
      checkDir := false;
      nup := 0;
      q := 0;
      output[q] := '/';
      q := q + 1;
      p := p + 1;
      assert t[1..] == stack[p..PATH_MAX];
      // A path that starts with exactly two slashes keeps both.
      if stack[p] == '/' && stack[p + 1] != '/' {
        output[q] := '/';
        q := q + 1;
      }
      assert output[..q] == RenderBase(Lead(t));
      Advance();
    }

    /** A "." on top of the stack is dropped. */
    method SkipDot(n: nat)
      requires Valid() && p + n <= PATH_MAX
      modifies this`p
      ensures Valid() && St() == old(St()).(text := SkipSlashes(old(St()).text[n..]))
    {
      hide SkipSlashes;
      assert stack[p..PATH_MAX][n..] == stack[p + n..PATH_MAX];
      p := p + n;
      Advance();
    }

    /** Push a slash on the stack if the output needs one before the next component. */
    method PushSlash() returns (ok: bool, l: nat)
      requires Valid()
      modifies this`p, stack
      ensures ok == (Sep(output[..q]) == output[..q] || old(p) > 0)
      ensures ok ==> p + l == old(p) && l <= 1 && Sep(output[..q]) == output[..q] + stack[p..p + l]
      ensures stack[old(p)..PATH_MAX] == old(stack[p..PATH_MAX]) && stack[PATH_MAX] == NUL
    {
      if q > 0 && output[q - 1] != '/' {
        if p == 0 {
          return false, 0;
        }
        p := p - 1;
        stack[p] := '/';
        assert stack[p..p + 1] == "/";
        return true, 1;
      }
      assert stack[p..p] == "";
      return true, 0;
    }

    /** Copy the component on top of the stack behind the output, a slash in between where needed;
        the output does not advance yet. */
    method CopyComponent(n: nat) returns (ok: bool, l: nat)
      requires Valid() && p + n <= PATH_MAX
      modifies this`p, stack, output
      ensures ok == ((Sep(old(St()).out) == old(St()).out || |old(St()).text| < PATH_MAX)
                     && |Sep(old(St()).out) + old(St()).text[..n]| < PATH_MAX)
      ensures ok ==> Buffers() && p == old(p) + n && q + l < PATH_MAX && l >= n
      ensures ok ==> stack[p..PATH_MAX] == old(St()).text[n..] && stack[PATH_MAX] == NUL
      ensures ok ==> stack[p - n..p] == old(St()).text[..n]
      ensures ok ==> output[..q + l] == Sep(old(St()).out) + old(St()).text[..n]
      ensures ok ==> output[..q] == old(St()).out && output[q + l] == NUL
    {
      hide Sep, NoNul, PieceLen, SkipSlashes;
      ghost var text := stack[p..PATH_MAX];
      ghost var out := output[..q];
      ok, l := PushSlash();
      if !ok {
        return;
      }
      TextCut(stack[..], text, p + l, n);
      LaidOut(stack[..], out, text, p, l, n);
      l := l + n;
      if q + l >= PATH_MAX {
        return false, l;
      }
      CopyComponentOut(l, n);
    }

    /** Copy l characters from the stack and end the output there. */
    method CopyComponentOut(l: nat, n: nat)
      requires Buffers() && p + l <= PATH_MAX && q + l < PATH_MAX && n <= l
      modifies this`p, output
      ensures output[..q + l] == old(output[..q]) + stack[old(p)..old(p) + l] && output[..q] == old(output[..q])
      ensures p == old(p) + l && output[q + l] == NUL && Buffers()
    {
      CopyOut(l);
      assert output[..q + l] == output[..q] + output[q..q + l];
      output[q + l] := NUL;
      p := p + l;
    }

    /** Copy l characters from the stack to the end of the output. */
    method CopyOut(l: nat)
      requires Buffers() && p + l <= PATH_MAX && q + l < PATH_MAX
      modifies output
      ensures output[..q] == old(output[..q]) && output[q..q + l] == stack[p..p + l]
    {
      var i := 0;
      while i < l
        invariant 0 <= i <= l && output[..q] == old(output[..q])
        invariant output[q..q + i] == stack[p..p + i]
      {
        output[q + i] := stack[p + i];
        i := i + 1;
      }
    }

    /** ".." cuts the last component off the output. */
    method PopOutput()
      requires Buffers()
      modifies this`q
      ensures Buffers() && q <= old(q) && output[..q] == PopComp(output[..old(q)])
    {
      ghost var was := output[..q];
      while q > 0 && output[q - 1] != '/'
        invariant q <= old(q) && CutToSlash(output[..q]) == CutToSlash(was)
      {
        assert output[..q][..q - 1] == output[..q - 1];
        q := q - 1;
      }
      assert output[..q] == CutToSlash(was);
      if q > 1 && (q > 2 || output[0] != '/') {
        assert output[..q][..q - 1] == output[..q - 1];
        q := q - 1;
      }
    }

    /** readlink: the contents of the link the output spells, cut to the p characters below the rest
        of the stack; -1 if there is none. */
    method ReadLink(m: nat) returns (k: int, errno: int)
      requires Buffers() && m < PATH_MAX && output[m] == NUL && NoNul(output[..m])
      modifies stack
      ensures stack[p..PATH_MAX] == old(stack[p..PATH_MAX]) && stack[PATH_MAX] == old(stack[PATH_MAX])
      ensures match env.link(output[..m])
              case NoLink(e) => k == -1 && errno == e
              case Content(c) => 0 <= k <= p && k == (if |c| < p then |c| else p) && stack[..k] == c[..k]
    {
      assert output[..][..m] == output[..m];
      CTextIs(output[..], m);
      match env.link(CText(output[..]))
      case NoLink(e) => return -1, e;
      case Content(c) =>
        k := if |c| < p then |c| else p;
        errno := 0;
        var i := 0;
        while i < k
          invariant 0 <= i <= k && stack[..i] == c[..i] && stack[p..] == old(stack[p..])
        {
          stack[i] := c[i];
          i := i + 1;
        }
        SliceSame(stack[..], old(stack[..]), p);
    }

    /** Move the first k characters of the stack up to position i, the last one first. */
    method MoveUp(k: nat, i: nat)
      requires Buffers() && i + k <= PATH_MAX
      modifies stack
      ensures stack[i..i + k] == old(stack[..k]) && stack[i + k..] == old(stack[i + k..])
      ensures stack[i + k..PATH_MAX] == old(stack[i + k..PATH_MAX]) && stack[PATH_MAX] == old(stack[PATH_MAX])
    {
      ghost var was := stack[..];
      var j := k;
      while j > 0
        invariant 0 <= j <= k
        invariant stack[..j] == was[..j] && stack[i + j..i + k] == was[j..k]
        invariant stack[i + k..] == was[i + k..]
      {
        j := j - 1;
        stack[i + j] := stack[j];
      }
      SliceSame(stack[..], was, i + k);
    }

    /** Put the root directory in front of the link contents at the bottom of the stack. */
    method PrependRoot(k: nat) returns (k': nat)
      requires Buffers() && |env.root| + k <= p
      modifies stack
      ensures k' == |env.root| + k && stack[..k'] == env.root + old(stack[..k]) && stack[p..] == old(stack[p..])
    {
      assert stack.Length == PATH_MAX + 1 && p <= PATH_MAX;
      hide *;
      var lr := |env.root|;
      ghost var s0 := stack[..];
      MoveUp(k, lr);
      ghost var s1 := stack[..];
      assert s1[lr..lr + k] == s0[..k] && s1[lr + k..] == s0[lr + k..];
      WriteRoot();
      k' := lr + k;
      ghost var s2 := stack[..];
      assert s2[lr..] == s1[lr..] && s2[..lr] == env.root;
      Prepended(s0, s1, s2, lr, k, p);
      assert stack[..k'] == s2[..k'] && stack[p..] == s2[p..];
    }

    method WriteRoot()
      requires Buffers() && |env.root| <= PATH_MAX
      modifies stack
      ensures stack[..|env.root|] == env.root && stack[|env.root|..] == old(stack[|env.root|..])
    {
      var i := 0;
      while i < |env.root|
        invariant 0 <= i <= |env.root| && stack[..i] == env.root[..i]
        invariant stack[|env.root|..] == old(stack[|env.root|..])
      {
        stack[i] := env.root[i];
        i := i + 1;
      }
    }

    /** The component, n characters long and l behind the output, has been copied: st is the state
        before, path the text looked up. */
    ghost predicate Copied(st: State, n: nat, l: nat)
      reads this, stack, output
    {
      && Buffers() && stack[PATH_MAX] == NUL && n <= |st.text| && |st.text| <= PATH_MAX
      && q + l < PATH_MAX && output[q + l] == NUL && NoNul(output[..q + l]) && NoNul(stack[p..PATH_MAX])
      && output[..q] == st.out && output[..q + l] == Sep(st.out) + st.text[..n]
      && stack[p..PATH_MAX] == st.text[n..] && st.nup == nup && st.cnt == cnt && st.check == checkDir
    }

    /** Not a link: the output advances, or ".." cuts it. */
    method TakeOver(ghost st: State, n: nat, l: nat, up: bool)
      requires Copied(st, n, l) && up == (st.text[..n] == "..")
      modifies this`p, this`q, this`checkDir
      ensures Valid() && St() == Take(st, n, Sep(st.out) + st.text[..n])
    {
      hide Sep, SkipSlashes, PopComp;
      ghost var rest := stack[p..PATH_MAX];
      NoNulPrefix(output[..q + l], q);
      assert output[..q + l][..q] == output[..q];
      checkDir := false;
      if up {
        PopPrefix(output[..q]);
        PopOutput();
      } else {
        if n > 0 {
          q := q + l;
        }
        checkDir := stack[p] != NUL;
        assert checkDir == (rest != "") by {
          assert p < PATH_MAX ==> stack[p] == rest[0];
        }
      }
      Advance();
    }

    /** Put the k characters at the bottom of the stack on top of it. */
    method StackContents(k: nat)
      requires Valid() && 0 < k <= p && NoNul(stack[..k])
      modifies this`p, stack
      ensures Valid() && stack[p..PATH_MAX] == Pushed(old(stack[..k]), old(stack[p..PATH_MAX]))
    {
      hide SkipSlashes, NoNul;
      SkipNoNul(stack[p..PATH_MAX]);
      // Slashes at the end of the contents swallow those already on the stack.
      if stack[k - 1] == '/' {
        Advance();
      }
      Place(k);
    }

    method Place(k: nat)
      requires Valid() && k <= p && NoNul(stack[..k])
      modifies this`p, stack
      ensures Valid() && stack[p..PATH_MAX] == old(stack[..k]) + old(stack[p..PATH_MAX])
    {
      hide NoNul;
      NoNulJoin(stack[..k], stack[p..PATH_MAX]);
      p := p - k;
      MoveUp(k, p);
      JoinedAt(stack[..], p, k, PATH_MAX);
    }

    /** Contents that start at the root are moved below the root directory, if there is room. */
    method Reroot(k0: nat) returns (fits: bool, k: nat)
      requires Valid() && 0 < k0 < p && NoNul(stack[..k0]) && NoNul(env.root)
      modifies stack
      ensures Valid() && stack[p..PATH_MAX] == old(stack[p..PATH_MAX])
      ensures var raw := old(stack[..k0]);
              var c := if raw[0] == '/' && env.root != "/" then env.root + raw else raw;
              fits == (|c| <= p) && (fits ==> k == |c| && stack[..k] == c && NoNul(c))
    {
      hide NoNul;
      k := k0;
      ghost var raw := stack[..k0];
      if stack[0] == '/' && env.root != "/" {
        NoNulJoin(env.root, raw);
        if |env.root| + k > p {
          return false, k;
        }
        ghost var tail := stack[p..];
        assert tail[..PATH_MAX - p] == stack[p..PATH_MAX] && tail[PATH_MAX - p] == NUL;
        k := PrependRoot(k);
        assert stack[p..PATH_MAX] == stack[p..][..PATH_MAX - p];
        assert stack[PATH_MAX] == stack[p..][PATH_MAX - p];
      }
      fits := true;
    }

    /** A link, its k characters at the bottom of the stack: they go in front of the rest. */
    method PushLink(ghost st: State, n: nat, l: nat, k0: nat, ghost c: string) returns (turn: Turn)
      requires n <= |st.text| && Copied(st, n, l) && 0 < k0 < p && NoNul(stack[..k0]) && NoNul(env.root)
      requires c == if stack[0] == '/' && env.root != "/" then env.root + stack[..k0] else stack[..k0]
      modifies this`p, this`cnt, stack
      ensures match turn
              case Done(r) => Follow(st, st.text[n..], c) == Halt(r)
              case Going => Valid() && Follow(st, st.text[n..], c) == More(St())
    {
      hide Sep, SkipSlashes, NoNul, Copied, Follow, Pushed;
      CopiedValid(st, n, l);
      FollowCases(st, st.text[n..], c);
      if cnt + 1 == SYMLOOP_MAX {
        return Done(Failed(ELOOP));
      }
      cnt := cnt + 1;
      var fits, k := Reroot(k0);
      if !fits {
        return Done(NoRoom);
      }
      StackContents(k);
      return Going;
    }

    lemma CopiedValid(st: State, n: nat, l: nat)
      requires Copied(st, n, l)
      ensures Valid() && St() == st.(text := st.text[n..])
    {
      assert output[..q + l][..q] == output[..q];
    }

    /** Look the copied path up, and follow the link or take the component over. */
    method AskLink(ghost st: State, n: nat, l: nat, up: bool) returns (turn: Turn)
      requires Copied(st, n, l) && TextEnv(env) && up == (st.text[..n] == "..")
      modifies this`p, this`q, this`cnt, this`checkDir, stack
      ensures match turn
              case Done(r) => Ask(env, st, n, Sep(st.out) + st.text[..n]) == Halt(r)
              case Going => Valid() && Ask(env, st, n, Sep(st.out) + st.text[..n]) == More(St())
    {
      hide Sep, SkipSlashes, NoNul, Follow, Take;
      ghost var path := output[..q + l];
      LinkNoNul(env, path, p);
      var k, errno := ReadLink(q + l);
      if k == p {
        return Done(Failed(ENAMETOOLONG));
      }
      if k == 0 && !(env.errno == ENOENT && env.missingOk) {
        return Done(Failed(ENOENT));
      }
      if k < 0 && !(errno == ENOENT && env.missingOk) && errno != EINVAL {
        return Done(Failed(errno));
      }
      if k <= 0 {
        TakeOver(st, n, l, up);
        return Going;
      }
      assert stack[..k] == env.link(path).text;
      turn := PushLink(st, n, l, k, LookAt(env, path).text);
    }

    /** Copy the component, and tell whether it is "..". */
    method LayOut(n: nat) returns (ok: bool, l: nat, up: bool)
      requires Valid() && p + n <= PATH_MAX
      modifies this`p, stack, output
      ensures ok == ((Sep(old(St()).out) == old(St()).out || |old(St()).text| < PATH_MAX)
                     && |Sep(old(St()).out) + old(St()).text[..n]| < PATH_MAX)
      ensures ok ==> Copied(old(St()), n, l) && up == (old(St()).text[..n] == "..")
    {
      hide Sep, NoNul, PieceLen, SkipSlashes;
      ghost var st := St();
      ok, l := CopyComponent(n);
      if !ok {
        return false, l, false;
      }
      PathNoNul(st.out, st.text, n);
      up := IsUp(n);
    }

    /** Whether the n characters just taken off the stack are "..". */
    method IsUp(n: nat) returns (up: bool)
      requires Buffers() && n <= p
      ensures up == (stack[p - n..p] == "..")
    {
      up := n == 2 && stack[p - 2] == '.' && stack[p - 1] == '.';
      DotDot(stack[p - n..p]);
    }

    /** The component on top of the stack, n characters and not ".". */
    method TakeComponent(n: nat) returns (turn: Turn)
      requires Valid() && p + n <= PATH_MAX && TextEnv(env)
      modifies this`p, this`q, this`nup, this`cnt, this`checkDir, stack, output
      ensures match turn
              case Done(r) => Component(env, old(St()), n) == Halt(r)
              case Going => Valid() && Component(env, old(St()), n) == More(St())
    {
      hide Sep, SkipSlashes, NoNul, Follow, Take, LookAt, Ask;
      ghost var st := St();
      var ok, l, up := LayOut(n);
      if !ok {
        return Done(Failed(ENAMETOOLONG));
      }
      CopiedValid(st, n, l);
      if up && q <= 3 * nup {
        nup := nup + 1;
        q := q + l;
        Advance();
        return Going;
      }
      if (up && !checkDir) || !env.follow {
        TakeOver(st, n, l, up);
        return Going;
      }
      turn := AskLink(st, n, l, up);
    }

    /** One iteration of the main loop. */
    method Iterate() returns (turn: Turn)
      requires Valid() && TextEnv(env)
      modifies this`p, this`q, this`nup, this`cnt, this`checkDir, stack, output
      ensures match turn
              case Done(r) => Step(env, old(St())) == Halt(r)
                              && (r.Stopped? ==> Valid() && St() == old(St()) && r.out == St().out && r.nup == nup)
              case Going => Valid() && Step(env, old(St())) == More(St())
    {
      hide SkipSlashes, NoNul, Component, Lead, RenderBase, TextEnv, PieceLen;
      ghost var st := St();
      TextHead(stack[..], p);
      if stack[p] == '/' {
        TakeRoot();
        return Going;
      }
      var n := ComponentLen();
      if n == 0 && !checkDir {
        return Done(Stopped(output[..q], nup));
      }
      if n == 1 && stack[p] == '.' {
        assert st.text[..n] == ".";
        SkipDot(n);
        return Going;
      }
      assert st.text[..n] != ".";
      turn := TakeComponent(n);
      if turn.Done? {
        ComponentStops(env, st, n);
      }
    }

    /** The main loop. */
    method Loop(ghost at: Dir) returns (r: Result)
      requires Valid() && TextEnv(env) && Match(St(), at)
      modifies this`p, this`q, this`nup, this`cnt, this`checkDir, stack, output
      ensures r == Run(env, old(St()))
      ensures r.Stopped? ==> Valid() && St().out == r.out && nup == r.nup
      ensures r.Stopped? ==> q >= 3 * nup - 1
    {
      hide Step, Run, NoNul, Match, TextEnv, Moved;
      ghost var d := at;
      var turn := Going;
      while turn.Going?
        invariant turn.Going? ==> Valid() && Match(St(), d) && Run(env, St()) == Run(env, old(St()))
        invariant turn.Done? ==> turn.r == Run(env, old(St()))
        invariant turn.Done? && turn.r.Stopped? ==>
                  Valid() && Match(St(), d) && St().out == turn.r.out && nup == turn.r.nup
        decreases turn.Going?, SYMLOOP_MAX - cnt, PATH_MAX - p, checkDir
      {
        ghost var st := St();
        turn := Iterate();
        if turn.Going? {
          StepSmaller(env, st);
          StepWalks(env, st, d);
          d := Moved(env, st, d);
          RunStep(env, st, St());
        } else {
          RunHalt(env, st);
        }
      }
      r := turn.r;
      if r.Stopped? {
        MatchUps(St(), d);
      }
    }

    /** Cut one directory off the first l characters of the stack for each leading "..", and skip
        those in the output. */
    method CancelUps(l0: nat) returns (l: nat)
      requires Buffers() && 0 < l0 <= PATH_MAX && q >= 3 * nup - 1
      modifies this`p
      ensures 0 < l <= l0 && p <= q && stack[..l] == CutUps(stack[..l0], nup)
      ensures output[p..q] == Below(output[..q], nup)
    {
      l := l0;
      p := 0;
      var m := nup;
      while m > 0
        invariant 0 <= m <= nup && 0 < l <= l0
        invariant CutUps(stack[..l], m) == CutUps(stack[..l0], nup)
        invariant p == if 3 * (nup - m) <= q then 3 * (nup - m) else q
      {
        l := CutOne(l);
        m := m - 1;
        p := p + 2;
        if p < q {
          p := p + 1;
        }
      }
    }

    method CutOne(l0: nat) returns (l: nat)
      requires Buffers() && 0 < l0 <= PATH_MAX
      ensures 0 < l <= l0 && stack[..l] == CutDir(stack[..l0])
    {
      l := l0;
      while l > 1 && stack[l - 1] != '/'
        invariant 0 < l <= l0 && CutDir(stack[..l]) == CutDir(stack[..l0])
      {
        assert stack[..l][..l - 1] == stack[..l - 1];
        l := l - 1;
      }
      if l > 1 {
        assert stack[..l][..l - 1] == stack[..l - 1];
        l := l - 1;
      }
    }

    /** Move the output from src on, n characters, to position dst. */
    method MoveOutput(dst: nat, src: nat, n: nat)
      requires Buffers() && src + n <= PATH_MAX && dst + n <= PATH_MAX
      modifies output
      ensures output[dst..dst + n] == old(output[src..src + n])
    {
      if dst <= src {
        MoveForward(dst, src, n);
      } else {
        MoveBackward(dst, src, n);
      }
    }

    method MoveForward(dst: nat, src: nat, n: nat)
      requires Buffers() && dst <= src && src + n <= PATH_MAX
      modifies output
      ensures output[dst..dst + n] == old(output[src..src + n])
    {
      ghost var was := output[src..src + n];
      var i := 0;
      while i < n
        invariant 0 <= i <= n && output[dst..dst + i] == was[..i]
        invariant output[src + i..src + n] == was[i..]
      {
        assert output[src + i] == was[i..][0];
        output[dst + i] := output[src + i];
        i := i + 1;
      }
    }

    method MoveBackward(dst: nat, src: nat, n: nat)
      requires Buffers() && src <= dst && dst + n <= PATH_MAX
      modifies output
      ensures output[dst..dst + n] == old(output[src..src + n])
    {
      ghost var was := output[src..src + n];
      var i := n;
      while i > 0
        invariant 0 <= i <= n && output[dst + i..dst + n] == was[i..]
        invariant output[src..src + i] == was[..i]
      {
        i := i - 1;
        assert output[src + i] == was[..i + 1][i];
        output[dst + i] := output[src + i];
      }
    }

    /** Copy the first l characters of the stack to the front of the output. */
    method CopyFront(l: nat)
      requires Buffers() && l <= PATH_MAX
      modifies output
      ensures output[..l] == stack[..l] && output[l..] == old(output[l..])
    {
      var i := 0;
      while i < l
        invariant 0 <= i <= l && output[..i] == stack[..i] && output[l..] == old(output[l..])
      {
        output[i] := stack[i];
        i := i + 1;
      }
    }

    /** getcwd into the stack. */
    method GetCwd(dir: string) returns (l: nat)
      requires Buffers() && 0 < |dir| <= PATH_MAX
      modifies stack
      ensures l == |dir| && stack[..l] == dir
    {
      l := |dir|;
      var i := 0;
      while i < l
        invariant 0 <= i <= l && stack[..i] == dir[..i]
      {
        stack[i] := dir[i];
        i := i + 1;
      }
      stack[l] := NUL;
    }

    /** The current directory in front of a relative result. */
    method PrependCwd(dir: string) returns (r: Answer)
      requires Valid() && q >= 3 * nup - 1 && 0 < |dir| <= PATH_MAX
      modifies this`p, this`q, stack, output
      ensures var tail := Below(old(St()).out, old(nup)); var base := CutUps(dir, old(nup));
              var front := if tail != "" then Sep(base) else base;
              r == if |front| + |tail| + 1 >= PATH_MAX then Error(ENAMETOOLONG) else Path(front + tail)
    {
      hide NoNul;
      var l := GetCwd(dir);
      l := CancelUps(l);
      ghost var base := stack[..l];
      ghost var tail := output[p..q];
      if q - p > 0 && stack[l - 1] != '/' {
        stack[l] := '/';
        l := l + 1;
      }
      assert stack[..l] == if tail != "" then Sep(base) else base;
      if l + (q - p) + 1 >= PATH_MAX {
        return Error(ENAMETOOLONG);
      }
      r := PutFront(l);
    }

    method PutFront(l: nat) returns (r: Answer)
      requires Buffers() && p <= q && l + (q - p) + 1 < PATH_MAX
      modifies this`q, output
      ensures r == Path(stack[..l] + old(output[p..q]))
    {
      MoveOutput(l, p, q - p);
      ghost var after := output[l..];
      assert after[..q - p] == output[l..l + (q - p)];
      CopyFront(l);
      q := l + q - p;
      assert output[..q] == output[..l] + output[l..][..q - l];
      r := Path(output[..q]);
    }

    /** Resolve a file name: what __realpathat and next_realpath do with their two buffers. */
    method Realpath(name: string, cwd: Cwd) returns (r: Answer)
      requires Sized() && TextEnv(env) && NoNul(name)
      requires cwd.At? ==> 0 < |cwd.path| <= PATH_MAX
      modifies this, stack, output
      ensures r == Resolve(env, cwd, name)
    {
      hide NoNul, Run, TextEnv, Finish, Render;
      if name == "" {
        return Error(ENOENT);
      }
      if |name| >= PATH_MAX {
        return Error(ENAMETOOLONG);
      }
      Load(name);
      StartMatch(St());
      var res := Loop(Dir(Rel(0), []));
      match res
      case Failed(e) => r := Error(e);
      case NoRoom => r := Overrun;
      case Stopped(_, _) => r := Complete(cwd);
    }

    /** The name at the end of the stack, nothing resolved. */
    method Load(name: string)
      requires Sized() && NoNul(name) && |name| < PATH_MAX
      modifies this, stack
      ensures Valid() && St() == State(name, "", 0, false, 0)
    {
      p, q, nup, cnt, checkDir := PATH_MAX - |name|, 0, 0, 0, false;
      var i := 0;
      while i < |name|
        modifies stack
        invariant 0 <= i <= |name| && stack[p..p + i] == name[..i]
      {
        stack[p + i] := name[i];
        i := i + 1;
      }
      stack[PATH_MAX] := NUL;
    }

    method Complete(cwd: Cwd) returns (r: Answer)
      requires Valid() && q >= 3 * nup - 1
      requires cwd.At? ==> 0 < |cwd.path| <= PATH_MAX
      modifies this`p, this`q, stack, output
      ensures r == Finish(old(St()).out, old(nup), cwd)
    {
      hide NoNul, CutUps, Below, Sep;
      ghost var out := output[..q];
      output[q] := NUL;
      assert output[..q] == out;
      if output[0] != '/' {
        match cwd
        case Lost(e) => return Error(e);
        case At(dir) => r := PrependCwd(dir);
      } else {
        r := Path(output[..q]);
      }
    }
  }
}
