/** The signature contents of actions and executors: what grouping actions into lists changes. */
module Signatures {
  import opened Std
  import opened Dedup
  import opened Actions
  import ActionRuns

  newtype Byte = x: int | 0 <= x < 256

  type Bytes = seq<Byte>

  /** For one set of targets, sources and environment: the contents of a leaf without its variables, and
      the expansion of a variable. */
  datatype Context = Context(presig: nat -> Bytes, expand: string -> Bytes)

  // ---- Variables ----

  /** `get_varlist`: a list names every variable of its elements once. */
  function Varlist(a: Action): seq<string>
    decreases a, 0
  {
    match a
    case Single(l) => l.varlist
    case List(items) => KeepFirst(VarlistFirst(items, |items|))
  }

  function VarlistFirst(items: seq<Action>, n: nat): seq<string>
    requires n <= |items|
    decreases items, n
  {
    if n == 0 then [] else VarlistFirst(items, n - 1) + Varlist(items[n - 1])
  }

  /** The variables of the leaves, with repetitions. */
  function VarsOf(ls: seq<Leaf>): seq<string> {
    if ls == [] then [] else VarsOf(ls[..|ls| - 1]) + ls[|ls| - 1].varlist
  }

  lemma {:induction false} VarsOfConcat(a: seq<Leaf>, b: seq<Leaf>)
    ensures VarsOf(a + b) == VarsOf(a) + VarsOf(b)
  {
    if b == [] {
      assert a + b == a && VarsOf(a) + [] == VarsOf(a);
    } else {
      var n := |b| - 1;
      assert (a + b)[..|a + b| - 1] == a + b[..n] && (a + b)[|a + b| - 1] == b[n];
      VarsOfConcat(a, b[..n]);
      assert (VarsOf(a) + VarsOf(b[..n])) + b[n].varlist == VarsOf(a) + (VarsOf(b[..n]) + b[n].varlist);
    }
  }

  lemma KeepFirstTwice(s: seq<string>)
    ensures KeepFirst(KeepFirst(s)) == KeepFirst(s)
  {
    KeepFirstMeaning(s);
    KeepFirstOfDistinct(KeepFirst(s));
  }

  /** Keeping the first of a concatenation only depends on keeping the first of its parts. */
  lemma KeepFirstParts(a: seq<string>, b: seq<string>, c: seq<string>, d: seq<string>)
    requires KeepFirst(a) == KeepFirst(c) && KeepFirst(b) == KeepFirst(d)
    ensures KeepFirst(a + b) == KeepFirst(c + d)
  {
    KeepFirstSplit(a, b);
    KeepFirstSplit(c, d);
    forall x ensures x in a <==> x in c { assert x in KeepFirst(a) <==> x in KeepFirst(c); }
    WithoutSame(KeepFirst(b), a, c);
  }

  /** The variables of a list are those of its leaves, each once, in the order of first occurrence,
      however the leaves are grouped. */
  lemma {:induction false} VarlistIsLeaves(a: Action)
    ensures KeepFirst(Varlist(a)) == KeepFirst(VarsOf(Leaves(a)))
    ensures a.List? ==> Varlist(a) == KeepFirst(VarsOf(Leaves(a)))
    decreases a, 0
  {
    match a {
      case Single(l) => assert [l][..0] == [] && [] + l.varlist == l.varlist;
      case List(items) =>
        VarlistFirstIsLeaves(items, |items|);
        KeepFirstTwice(VarlistFirst(items, |items|));
    }
  }

  lemma {:induction false} VarlistFirstIsLeaves(items: seq<Action>, n: nat)
    requires n <= |items|
    ensures KeepFirst(VarlistFirst(items, n)) == KeepFirst(VarsOf(LeavesFirst(items, n)))
    decreases items, n
  {
    if n > 0 {
      VarlistFirstIsLeaves(items, n - 1);
      VarlistIsLeaves(items[n - 1]);
      VarsOfConcat(LeavesFirst(items, n - 1), Leaves(items[n - 1]));
      KeepFirstParts(VarlistFirst(items, n - 1), Varlist(items[n - 1]),
                     VarsOf(LeavesFirst(items, n - 1)), VarsOf(Leaves(items[n - 1])));
    }
  }

  // ---- Contents ----

  function Expansions(ctx: Context, vars: seq<string>): Bytes {
    if vars == [] then [] else Expansions(ctx, vars[..|vars| - 1]) + ctx.expand(vars[|vars| - 1])
  }

  /** `get_contents`: the contents of a leaf or of all elements, and then every variable again. */
  function Contents(ctx: Context, a: Action): Bytes
    decreases a, 0
  {
    match a
    case Single(l) => ctx.presig(l.id) + Expansions(ctx, l.varlist)
    case List(items) => ContentsFirst(ctx, items, |items|) + Expansions(ctx, Varlist(a))
  }

  function ContentsFirst(ctx: Context, items: seq<Action>, n: nat): Bytes
    requires n <= |items|
    decreases items, n
  {
    if n == 0 then [] else ContentsFirst(ctx, items, n - 1) + Contents(ctx, items[n - 1])
  }

  /** The contents of leaves, one after the other. */
  function Flat(ctx: Context, ls: seq<Leaf>): Bytes {
    if ls == [] then [] else Flat(ctx, ls[..|ls| - 1]) + Contents(ctx, Single(ls[|ls| - 1]))
  }

  lemma {:induction false} FlatConcat(ctx: Context, a: seq<Leaf>, b: seq<Leaf>)
    ensures Flat(ctx, a + b) == Flat(ctx, a) + Flat(ctx, b)
  {
    if b == [] {
      assert a + b == a && Flat(ctx, a) + [] == Flat(ctx, a);
    } else {
      var n := |b| - 1;
      assert (a + b)[..|a + b| - 1] == a + b[..n] && (a + b)[|a + b| - 1] == b[n];
      FlatConcat(ctx, a, b[..n]);
      var x, y, z := Flat(ctx, a), Flat(ctx, b[..n]), Contents(ctx, Single(b[n]));
      assert (x + y) + z == x + (y + z);
    }
  }

  /** Every variable named expands to nothing. */
  predicate Silent(ctx: Context, vars: seq<string>) { forall v | v in vars :: ctx.expand(v) == [] }

  lemma {:induction false} SilentExactly(ctx: Context, vars: seq<string>)
    ensures Expansions(ctx, vars) == [] <==> Silent(ctx, vars)
  {
    if vars != [] {
      var n := |vars| - 1;
      SilentExactly(ctx, vars[..n]);
      assert vars == vars[..n] + [vars[n]];
      assert Expansions(ctx, vars) == [] <==> Expansions(ctx, vars[..n]) == [] && ctx.expand(vars[n]) == [];
    }
  }

  lemma SilentList(ctx: Context, a: Action)
    requires a.List?
    ensures Expansions(ctx, Varlist(a)) == [] <==> Silent(ctx, VarsOf(Leaves(a)))
  {
    VarlistIsLeaves(a);
    SilentExactly(ctx, Varlist(a));
  }

  /** Grouping only ever adds bytes. */
  lemma {:induction false} ContentsAtLeast(ctx: Context, a: Action)
    ensures |Contents(ctx, a)| >= |Flat(ctx, Leaves(a))|
    ensures a.List? && !Silent(ctx, VarsOf(Leaves(a))) ==> |Contents(ctx, a)| > |Flat(ctx, Leaves(a))|
    ensures a.Single? || Silent(ctx, VarsOf(Leaves(a))) ==> Contents(ctx, a) == Flat(ctx, Leaves(a))
    decreases a, 0
  {
    match a {
      case Single(l) => assert [l][..0] == [] && [] + Contents(ctx, a) == Contents(ctx, a);
      case List(items) =>
        ContentsFirstAtLeast(ctx, items, |items|);
        SilentList(ctx, a);
        var x := ContentsFirst(ctx, items, |items|);
        assert x + [] == x;
    }
  }

  lemma {:induction false} ContentsFirstAtLeast(ctx: Context, items: seq<Action>, n: nat)
    requires n <= |items|
    ensures |ContentsFirst(ctx, items, n)| >= |Flat(ctx, LeavesFirst(items, n))|
    ensures Silent(ctx, VarsOf(LeavesFirst(items, n))) ==> ContentsFirst(ctx, items, n) == Flat(ctx, LeavesFirst(items, n))
    decreases items, n
  {
    if n > 0 {
      ContentsFirstAtLeast(ctx, items, n - 1);
      ContentsAtLeast(ctx, items[n - 1]);
      VarsOfConcat(LeavesFirst(items, n - 1), Leaves(items[n - 1]));
      FlatConcat(ctx, LeavesFirst(items, n - 1), Leaves(items[n - 1]));
    }
  }

  /** A list of actions, nested in any way, has the contents of its leaves one after the other exactly
      when no leaf names a variable that expands to something; otherwise it has more. */
  lemma ContentsFlatExactly(ctx: Context, a: Action)
    requires a.List?
    ensures Contents(ctx, a) == Flat(ctx, Leaves(a)) <==> Silent(ctx, VarsOf(Leaves(a)))
  {
    ContentsAtLeast(ctx, a);
  }

  /** So regrouping the same leaves keeps the signature when the leaves name no variables. */
  lemma RegroupKeeps(ctx: Context, a: Action, b: Action)
    requires Leaves(a) == Leaves(b) && Silent(ctx, VarsOf(Leaves(a)))
    ensures Contents(ctx, a) == Contents(ctx, b)
  {
    ContentsAtLeast(ctx, a);
    ContentsAtLeast(ctx, b);
  }

  /** One more level of grouping changes the signature exactly when some variable expands to
      something: the list appends each variable once more. */
  lemma WrapExactly(ctx: Context, a: Action)
    ensures Contents(ctx, List([a])) == Contents(ctx, a) + Expansions(ctx, KeepFirst(VarsOf(Leaves(a))))
    ensures Contents(ctx, List([a])) == Contents(ctx, a) <==> Silent(ctx, VarsOf(Leaves(a)))
  {
    LeavesOfOne(a);
    assert Leaves(List([a])) == LeavesFirst([a], 1);
    VarlistIsLeaves(List([a]));
    assert ContentsFirst(ctx, [a], 0) == [] && [] + Contents(ctx, a) == Contents(ctx, a);
    assert ContentsFirst(ctx, [a], 1) == Contents(ctx, a);
    var vars := KeepFirst(VarsOf(Leaves(a)));
    SilentExactly(ctx, vars);
    assert Silent(ctx, vars) <==> Silent(ctx, VarsOf(Leaves(a)));
  }

  // ---- The code ----

  /** `get_varlist` as the code runs it, entering variables into an ordered dictionary. */
  method GetVarlist(a: Action) returns (vars: seq<string>)
    ensures vars == Varlist(a)
    decreases a
  {
    match a {
      case Single(l) => vars := l.varlist;
      case List(items) =>
        vars := [];
        var i := 0;
        while i < |items|
          invariant 0 <= i <= |items| && vars == KeepFirst(VarlistFirst(items, i))
        {
          var more := GetVarlist(items[i]);
          vars := EnterAll(vars, more, VarlistFirst(items, i));
          i := i + 1;
        }
    }
  }

  /** The inner loop: variables that are in the dictionary already keep their place. */
  method EnterAll(dict: seq<string>, more: seq<string>, ghost before: seq<string>) returns (vars: seq<string>)
    requires dict == KeepFirst(before)
    ensures vars == KeepFirst(before + more)
  {
    vars := dict;
    var j := 0;
    assert before + more[..0] == before;
    while j < |more|
      invariant 0 <= j <= |more| && vars == KeepFirst(before + more[..j])
    {
      assert before + more[..j + 1] == (before + more[..j]) + [more[j]];
      KeepFirstSnoc(before + more[..j], more[j]);
      if more[j] !in vars { vars := vars + [more[j]]; }
      j := j + 1;
    }
    assert more[..j] == more;
  }

  // ---- Executors ----

  function ContentsAll(ctx: Context, acts: seq<Action>): Bytes { ContentsFirst(ctx, acts, |acts|) }

  lemma {:induction false} ContentsFirstConcat(ctx: Context, a: seq<Action>, b: seq<Action>, n: nat)
    requires n <= |b|
    ensures ContentsFirst(ctx, a + b, |a| + n) == ContentsAll(ctx, a) + ContentsFirst(ctx, b, n)
    decreases n
  {
    if n == 0 {
      ContentsFirstPrefix(ctx, a + b, a, |a|);
      assert ContentsAll(ctx, a) + [] == ContentsAll(ctx, a);
    } else {
      ContentsFirstConcat(ctx, a, b, n - 1);
      assert (a + b)[|a| + n - 1] == b[n - 1];
      var x, y, z := ContentsAll(ctx, a), ContentsFirst(ctx, b, n - 1), Contents(ctx, b[n - 1]);
      assert (x + y) + z == x + (y + z);
    }
  }

  lemma {:induction false} ContentsFirstPrefix(ctx: Context, a: seq<Action>, b: seq<Action>, n: nat)
    requires n <= |a| && n <= |b| && a[..n] == b[..n]
    ensures ContentsFirst(ctx, a, n) == ContentsFirst(ctx, b, n)
    decreases n
  {
    if n > 0 {
      assert a[n - 1] == a[..n][n - 1] && b[n - 1] == b[..n][n - 1];
      assert a[..n - 1] == a[..n][..n - 1] && b[..n - 1] == b[..n][..n - 1];
      ContentsFirstPrefix(ctx, a, b, n - 1);
    }
  }

  lemma ContentsAllConcat(ctx: Context, a: seq<Action>, b: seq<Action>)
    ensures ContentsAll(ctx, a + b) == ContentsAll(ctx, a) + ContentsAll(ctx, b)
  {
    ContentsFirstConcat(ctx, a, b, |b|);
  }

  lemma ContentsAllOne(ctx: Context, a: Action)
    ensures ContentsAll(ctx, [a]) == Contents(ctx, a)
  {
    assert ContentsFirst(ctx, [a], 0) == [] && [] + Contents(ctx, a) == Contents(ctx, a);
  }

  /** Two executors with the same leaves have the same signature when the leaves name no variables
      that expand to something, however the actions are grouped and whether they come before, in or
      after the main list. */
  lemma ExecutorRegroupKeeps(ctx: Context, a: seq<Action>, b: seq<Action>)
    requires LeavesFirst(a, |a|) == LeavesFirst(b, |b|) && Silent(ctx, VarsOf(LeavesFirst(a, |a|)))
    ensures ContentsAll(ctx, a) == ContentsAll(ctx, b)
  {
    ContentsFirstAtLeast(ctx, a, |a|);
    ContentsFirstAtLeast(ctx, b, |b|);
  }

  /** The actions of an executor. */
  datatype Parts = Parts(pre: seq<Action>, main: Option<seq<Action>>, post: seq<Action>)

  /** `get_action_list`: without a main list there are no actions at all. */
  function ActionList(p: Parts): seq<Action> { if p.main.None? then [] else p.pre + p.main.value + p.post }

  /** The contents of a single action: its own, and then every variable it names. */
  lemma LeafContents(ctx: Context, id: nat, dir: Option<string>, vars: seq<string>, v: string)
    ensures Contents(ctx, Single(Leaf(id, dir, []))) == ctx.presig(id)
    ensures Contents(ctx, Single(Leaf(id, dir, vars + [v]))) == Contents(ctx, Single(Leaf(id, dir, vars))) + ctx.expand(v)
  {
    assert (vars + [v])[..|vars|] == vars;
    var x, y, z := ctx.presig(id), Expansions(ctx, vars), ctx.expand(v);
    assert x + (y + z) == (x + y) + z && x + [] == x;
  }

  /** What an executor signs and runs: the actions before the main list, those in it, and those after it. */
  lemma PartsInOrder(ctx: Context, p: Parts)
    ensures p.main.None? ==> ContentsAll(ctx, ActionList(p)) == [] && ActionList(p) == []
    ensures p.main.Some? ==>
              var acts, main := ActionList(p), p.main.value;
              && ContentsAll(ctx, acts) == ContentsAll(ctx, p.pre) + ContentsAll(ctx, main) + ContentsAll(ctx, p.post)
              && LeavesFirst(acts, |acts|) ==
                 LeavesFirst(p.pre, |p.pre|) + LeavesFirst(main, |main|) + LeavesFirst(p.post, |p.post|)
  {
    if p.main.Some? {
      var main := p.main.value;
      ContentsAllConcat(ctx, p.pre, main);
      ContentsAllConcat(ctx, p.pre + main, p.post);
      LeavesFirstConcat(p.pre, main, |main|);
      LeavesFirstConcat(p.pre + main, p.post, |p.post|);
    }
  }

  /** Adding an action changes the contents exactly when there is a main list and the action has
      contents; so that is exactly when a remembered signature is out of date. */
  lemma AddedActionExactly(ctx: Context, p: Parts, a: Action)
    ensures ContentsAll(ctx, ActionList(p.(pre := p.pre + [a]))) == ContentsAll(ctx, ActionList(p)) <==>
            p.main.None? || Contents(ctx, a) == []
    ensures ContentsAll(ctx, ActionList(p.(post := p.post + [a]))) == ContentsAll(ctx, ActionList(p)) <==>
            p.main.None? || Contents(ctx, a) == []
  {
    if p.main.Some? {
      var pre, main, post := p.pre, p.main.value, p.post;
      ContentsAllOne(ctx, a);
      ContentsAllConcat(ctx, pre, [a]);
      ContentsAllConcat(ctx, pre, main);
      ContentsAllConcat(ctx, pre + [a], main);
      ContentsAllConcat(ctx, pre + main, post);
      ContentsAllConcat(ctx, (pre + [a]) + main, post);
      ContentsAllConcat(ctx, post, [a]);
      ContentsAllConcat(ctx, pre + main, post + [a]);
      var x, y, z, c := ContentsAll(ctx, pre), ContentsAll(ctx, main), ContentsAll(ctx, post), Contents(ctx, a);
      if c == [] { assert x + c == x && z + c == z; }
    }
  }

  /** The text of a build error: its own, or "Error" and a number. */
  datatype Message = Text(text: string) | ErrorNumber(n: int)

  /** How `execute_action_list` ends: it returns zero, or raises a build error with a status and a text,
      or lets an exception through. */
  datatype Final = Finished | Error(status: int, message: Message) | Exception(e: nat)

  /** The status of a build error that is not given one. */
  const DEFAULT_STATUS := 2

  /** A build error goes on as it is; a number other than zero gets into the text of a new one, whose
      status is the default. */
  function FinalOf(out: Outcome): Final {
    match out
    case Status(s) => if s == 0 then Finished else Error(DEFAULT_STATUS, ErrorNumber(s))
    case BuildError(s, text) => Error(s, Text(text))
    case Raised(e) => Exception(e)
  }

  /** Executing a list of actions ends as running its leaves does; and in the directory it began in if
      every leaf it gets to returns. */
  lemma ExecuteRestoresCwd(sys: System, acts: seq<Action>, w: World, o: Options)
    ensures RunFirst(sys, acts, |acts|, w, o) == RunLeaves(sys, LeavesFirst(acts, |acts|), w, o)
    ensures RunReturns(sys, LeavesFirst(acts, |acts|), w, o) ==> RunFirst(sys, acts, |acts|, w, o).0.cwd == w.cwd
  {
    var ls := LeavesFirst(acts, |acts|);
    RunFirstIsLeaves(sys, acts, |acts|, w, o);
    if RunReturns(sys, ls, w, o) {
      LeavesRestoreCwd(sys, ls, |ls|, w, o);
      assert ls[..|ls|] == ls;
    }
  }

  /** Executing a list of actions finishes if and only if each leaf, started where the one before it left
      the process, succeeds.  Otherwise the first leaf that does not decides: its build error is raised with
      status and text, its exception goes up, and its number is the text of a build error of status 2. */
  lemma ExecuteFinishesExactly(sys: System, acts: seq<Action>, o: Options, ws: seq<World>)
    requires ActionRuns.Chain(sys, LeavesFirst(acts, |acts|), o, ws)
    ensures var ls, end := LeavesFirst(acts, |acts|), FinalOf(RunFirst(sys, acts, |acts|, ws[0], o).1);
            && (end == Finished <==> forall i | 0 <= i < |ls| :: ActionRuns.Succeeds(sys, ls[i], ws[i], o))
            && forall n | 0 <= n < |ls| && ActionRuns.GetsTo(sys, ls, o, ws, n) && !ActionRuns.Succeeds(sys, ls[n], ws[n], o) ::
                 match RunLeaf(sys, ls[n], ws[n], o).1
                 case Status(s) => end == Error(2, ErrorNumber(s))
                 case BuildError(s, text) => end == Error(s, Text(text))
                 case Raised(e) => end == Exception(e)
  {
    var ls := LeavesFirst(acts, |acts|);
    assert Leaves(List(acts)) == ls;
    ActionRuns.TreeSucceedsExactly(sys, List(acts), o, ws);
    assert Run(sys, List(acts), ws[0], o) == RunFirst(sys, acts, |acts|, ws[0], o);
    forall n | 0 <= n < |ls| && !ActionRuns.Succeeds(sys, ls[n], ws[n], o)
      ensures !Success(RunLeaf(sys, ls[n], ws[n], o).1)
    {
      ActionRuns.LeafSucceedsExactly(sys, ls[n], ws[n], o);
    }
  }

  class ActionExecutor {
    var parts: Parts
    var memo: Option<Bytes>

    constructor (main: Option<seq<Action>>)
      ensures parts == Parts([], main, []) && memo == None
    { parts, memo := Parts([], main, []), None; }

    method AddPreAction(a: Action)
      modifies this`parts
      ensures parts == old(parts).(pre := old(parts).pre + [a])
    { parts := parts.(pre := parts.pre + [a]); }

    method AddPostAction(a: Action)
      modifies this`parts
      ensures parts == old(parts).(post := old(parts).post + [a])
    { parts := parts.(post := parts.post + [a]); }

    method Cleanup()
      modifies this`memo
      ensures memo == None
    { memo := None; }

    /** `get_contents`: computed once, and then remembered whatever is added. */
    method GetContents(ctx: Context) returns (result: Bytes)
      modifies this`memo
      ensures result == if old(memo).Some? then old(memo).value else ContentsAll(ctx, ActionList(parts))
      ensures memo == Some(result)
    {
      if memo.Some? { return memo.value; }
      var acts := ActionList(parts);
      result := [];
      var i := 0;
      while i < |acts|
        invariant 0 <= i <= |acts| && result == ContentsFirst(ctx, acts, i)
      {
        result := result + Contents(ctx, acts[i]);
        i := i + 1;
      }
      memo := Some(result);
    }

    /** `execute_action_list`. */
    method ExecuteActionList(sys: System, process: Process, o: Options) returns (end: Final)
      modifies process
      ensures (process.world, end) ==
              (var (w', out) := RunFirst(sys, ActionList(parts), |ActionList(parts)|, old(process.world), o); (w', FinalOf(out)))
    {
      var acts := ActionList(parts);
      var i := 0;
      while i < |acts|
        invariant 0 <= i <= |acts|
        invariant RunFirst(sys, acts, i, old(process.world), o) == (process.world, Status(0))
      {
        var status := process.Call(sys, acts[i], o);
        if !Success(status) {
          FailureStays(sys, acts, i + 1, |acts|, old(process.world), o);
          return FinalOf(status);
        }
        i := i + 1;
      }
      end := Finished;
    }
  }
}
