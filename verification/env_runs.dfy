// Runs of environment calls: what they make of the strings, and what becomes of each string that
// setenv allocates on the way.
module EnvRuns {
  import opened EnvSpec
  import opened EnvArray

  /** One call; putenv is handed a string of the caller's. */
  datatype Op =
    | SetEnv(name: string, value: string, overwrite: bool)
    | UnsetEnv(name: string)
    | PutEnv(s: Ptr)
    | ClearEnv

  /** What a call makes of the strings of the environment. */
  function Step(es: seq<string>, op: Op, text: map<Ptr, string>): seq<string>
    requires op.PutEnv? ==> op.s in text
  {
    match op
    case SetEnv(name, value, overwrite) =>
      if IsName(name) && (overwrite || Get(es, name).None?) then Put(es, name + "=" + value, name) else es
    case UnsetEnv(name) => if IsName(name) then Drop(es, name) else es
    case PutEnv(s) =>
      var t := text[s];
      var n := NameOf(t);
      if n != "" && n != t then Put(es, t, n) else if IsName(t) then Drop(es, t) else es
    case ClearEnv => []
  }

  /** Strings of the caller's, which setenv did not allocate. */
  ghost predicate Callers(ops: seq<Op>, text: map<Ptr, string>, made: set<Ptr>) {
    forall i | 0 <= i < |ops| && ops[i].PutEnv? :: ops[i].s in text && ops[i].s !in made
  }

  /** What the first k calls make of the strings. */
  function Steps(es: seq<string>, ops: seq<Op>, k: nat, text: map<Ptr, string>): seq<string>
    requires k <= |ops| && forall i | 0 <= i < k && ops[i].PutEnv? :: ops[i].s in text
  {
    if k == 0 then es else Step(Steps(es, ops, k - 1, text), ops[k - 1], text)
  }

  /** The pointers in the list, the record of allocated strings, what has been freed, and what setenv has
      allocated so far. */
  datatype Books = Books(list: seq<Ptr>, alloced: seq<Ptr>, freed: seq<Ptr>, made: set<Ptr>)

  /** An allocated string is in the list and recorded, each once, or has been freed, once; nothing else is
      recorded or freed. */
  ghost predicate Settled(b: Books) {
    && (forall p | p in b.made :: SettledAt(b, p))
    && (forall p | p != 0 && (p in b.alloced || p in b.freed) :: p in b.made)
  }

  ghost predicate SettledAt(b: Books, p: Ptr) {
    && (p in b.list <==> p in b.alloced) && (p in b.list <==> p !in b.freed)
    && (p in b.list ==> multiset(b.list)[p] == 1 && multiset(b.alloced)[p] == 1)
    && (p in b.freed ==> multiset(b.freed)[p] == 1)
  }

  /** One call allocates at most one string, which it puts into the list, and what was freed stays freed. */
  ghost predicate Onward(b: Books, c: Books) {
    && b.freed <= c.freed
    && (c.made == b.made || exists p | p !in b.made :: c.made == b.made + {p} && p in c.list)
  }

  ghost predicate Trace(ts: seq<Books>) {
    && (forall i | 0 <= i < |ts| :: Settled(ts[i]))
    && (forall i, j | 0 <= i && j == i + 1 < |ts| :: Onward(ts[i], ts[j]))
  }

  ghost function BooksOf(env: Environment): Books
    reads env, env.environ
    requires env.Valid()
  {
    Books(env.List(), env.alloced, env.freed, env.made)
  }

  lemma BooksSettled(env: Environment)
    requires env.Valid()
    ensures Settled(BooksOf(env))
  {
    hide Owns;
    forall p | p in env.made
      ensures SettledAt(BooksOf(env), p)
    {
      env.MadeSettled(p);
    }
  }

  /** A single call. */
  method Call(env: Environment, op: Op)
    requires env.Valid() && (op.PutEnv? ==> op.s in env.text && op.s !in env.made)
    modifies env, env.environ
    ensures env.Valid() && env.Entries() == Step(old(env.Entries()), op, old(env.text))
    ensures Settled(BooksOf(env)) && Onward(old(BooksOf(env)), BooksOf(env))
    ensures forall p | p in old(env.text) :: p in env.text && env.text[p] == old(env.text)[p]
    ensures forall p | p in old(env.text) && p !in old(env.made) :: p !in env.made
    ensures env.environ == null || env.environ == old(env.environ) || fresh(env.environ)
  {
    hide Put, Drop, Get, Owns, Ledger, Texts, Settled;
    match op {
      case SetEnv(name, value, overwrite) => var _ := env.Setenv(name, value, overwrite);
      case UnsetEnv(name) => var _ := env.Unsetenv(name);
      case PutEnv(s) => var _ := env.Putenv(s);
      case ClearEnv => var _ := env.Clearenv();
    }
    BooksSettled(env);
  }

  /** Any sequence of calls; ts are the books before, between and after them. */
  method Run(env: Environment, ops: seq<Op>) returns (ghost ts: seq<Books>)
    requires env.Valid() && Callers(ops, env.text, env.made)
    modifies env, env.environ
    ensures env.Valid() && env.Entries() == Steps(old(env.Entries()), ops, |ops|, old(env.text))
    ensures |ts| == |ops| + 1 && ts[0] == old(BooksOf(env)) && ts[|ops|] == BooksOf(env) && Trace(ts)
  {
    hide Step, Settled, Onward, Trace, Owns, Texts, Ledger, Ended, SettledAt;
    ghost var text := env.text;
    ts := [BooksOf(env)];
    BooksSettled(env);
    TraceOne(BooksOf(env));
    var k := 0;
    while k < |ops|
      invariant k <= |ops| && env.Valid() && Callers(ops, env.text, env.made)
      invariant env.Entries() == Steps(old(env.Entries()), ops, k, text)
      invariant |ts| == k + 1 && ts[0] == old(BooksOf(env)) && ts[k] == BooksOf(env) && Trace(ts)
      invariant forall p | p in text :: p in env.text && env.text[p] == text[p]
      invariant env.environ == null || env.environ == old(env.environ) || fresh(env.environ)
    {
      StepSame(env.Entries(), ops[k], text, env.text);
      Call(env, ops[k]);
      TraceMore(ts, BooksOf(env));
      ts := ts + [BooksOf(env)];
      k := k + 1;
    }
  }

  lemma StepSame(es: seq<string>, op: Op, text: map<Ptr, string>, text': map<Ptr, string>)
    requires op.PutEnv? ==> op.s in text && op.s in text' && text[op.s] == text'[op.s]
    ensures Step(es, op, text) == Step(es, op, text')
  {
  }

  lemma TraceOne(b: Books)
    requires Settled(b)
    ensures Trace([b])
  {
  }

  lemma TraceMore(ts: seq<Books>, b: Books)
    requires Trace(ts) && ts != [] && Settled(b) && Onward(ts[|ts| - 1], b)
    ensures Trace(ts + [b])
  {
    hide Settled, Onward;
  }

  /** Of a string that setenv has allocated by the time i: from then on it is in the list, recorded once,
      up to some time k, and from k on it is out of it for good, freed once. */
  lemma {:induction false} LeavesOnce(ts: seq<Books>, i: nat, p: Ptr) returns (k: nat)
    requires Trace(ts) && i < |ts| && p in ts[i].made
    ensures i <= k <= |ts|
    ensures forall j | i <= j < |ts| :: p in ts[j].made && SettledAt(ts[j], p) && (p in ts[j].list <==> j < k)
    decreases |ts| - i
  {
    assert SettledAt(ts[i], p);
    if i + 1 == |ts| {
      k := if p in ts[i].list then i + 1 else i;
    } else {
      assert Onward(ts[i], ts[i + 1]);
      k := LeavesOnce(ts, i + 1, p);
      if p !in ts[i].list {
        assert p in ts[i].freed && p in ts[i + 1].freed;
        k := i;
      }
    }
  }
}
