/** The algebra of actions: making them, adding them, running them. */
module Actions {
  import opened Std

  /** A single action: a command, a function or a lazily evaluated variable, by identity, with its own
      working directory and the variables its signature names. */
  datatype Leaf = Leaf(id: nat, chdir: Option<string>, varlist: seq<string>)

  datatype Action = Single(leaf: Leaf) | List(items: seq<Action>)

  datatype Error = TypeError

  // ---- Making actions ----

  /** What can be given for an action: an action, the lines of a string, a list (with what it is when
      taken as the words of one command), a callable, a number, or anything else. */
  datatype Raw =
    | Built(a: Action)
    | Lines(first: Leaf, more: seq<Leaf>)
    | Items(raws: seq<Raw>, command: Leaf)
    | Callable(leaf: Leaf)
    | Number
    | Other

  type Made = Result<Option<Action>, Error>

  function Singles(lines: seq<Leaf>): (r: seq<Action>)
    ensures |r| == |lines| && forall i | 0 <= i < |lines| :: r[i] == Single(lines[i])
  {
    seq(|lines|, i requires 0 <= i < |lines| => Single(lines[i]))
  }

  /** `_do_create_action`: a string of several lines is a list, and a list, here inside another one, is
      a single command. */
  function CreateItem(r: Raw): Made {
    match r
    case Built(a) => Ok(Some(a))
    case Lines(first, more) => Ok(Some(if more == [] then Single(first) else List(Singles([first] + more))))
    case Items(raws, command) => if exists r :: r in raws && r.Items? then Err(TypeError) else Ok(Some(Single(command)))
    case Callable(leaf) => Ok(Some(Single(leaf)))
    case Number => Err(TypeError)
    case Other => Ok(None)
  }

  /** The actions of a list, without those that are none. */
  function CreateItems(rs: seq<Raw>): Result<seq<Action>, Error> {
    if rs == [] then Ok([])
    else
      var first := CreateItem(rs[0]);
      if first.Err? then Err(first.error)
      else
        var rest := CreateItems(rs[1..]);
        if rest.Err? then rest else Ok((if first.value.Some? then [first.value.value] else []) + rest.value)
  }

  /** `Action`: a list with one action stands for that action. */
  function Create(r: Raw): Made {
    if r.Items? then
      var acts := CreateItems(r.raws);
      if acts.Err? then Err(acts.error)
      else Ok(Some(if |acts.value| == 1 then acts.value[0] else List(acts.value)))
    else CreateItem(r)
  }

  // ---- Adding actions ----

  /** `_actionAppend`, once both arguments are actions. */
  function Append(a1: Option<Action>, a2: Option<Action>): Option<Action> {
    if a1.None? then a2
    else if a2.None? then a1
    else if a1.value.List? then
      if a2.value.List? then Some(List(a1.value.items + a2.value.items)) else Some(List(a1.value.items + [a2.value]))
    else if a2.value.List? then Some(List([a1.value] + a2.value.items))
    else Some(List([a1.value, a2.value]))
  }

  /** `_actionAppend`. */
  function Add(r1: Raw, r2: Raw): Made {
    var a1 := Create(r1);
    if a1.Err? then a1
    else var a2 := Create(r2); if a2.Err? then a2 else Ok(Append(a1.value, a2.value))
  }

  /** An action, or nothing, as something to add to. */
  function Again(a: Option<Action>): Raw { if a.Some? then Built(a.value) else Other }

  function Elements(a: Option<Action>): seq<Action> {
    if a.None? then [] else if a.value.List? then a.value.items else [a.value]
  }

  lemma AppendElements(a: Option<Action>, b: Option<Action>)
    requires a.Some? && b.Some?
    ensures Append(a, b) == Some(List(Elements(a) + Elements(b)))
  {
    if a.value.Single? && b.value.Single? { assert [a.value] + [b.value] == [a.value, b.value]; }
  }

  /** Appending is associative and has "no action" as its unit. */
  lemma AppendAssociative(a: Option<Action>, b: Option<Action>, c: Option<Action>)
    ensures Append(Append(a, b), c) == Append(a, Append(b, c))
    ensures Append(None, a) == a && Append(a, None) == a
  {
    if a.Some? && b.Some? && c.Some? {
      AppendElements(a, b);
      AppendElements(b, c);
      AppendElements(Append(a, b), c);
      AppendElements(a, Append(b, c));
      assert (Elements(a) + Elements(b)) + Elements(c) == Elements(a) + (Elements(b) + Elements(c));
    }
  }

  /** The empty list of actions is a unit exactly for lists: it makes a list of anything else. */
  lemma EmptyListUnitExactly(a: Action)
    ensures Append(Some(List([])), Some(a)) == Some(a) <==> a.List?
    ensures Append(Some(a), Some(List([]))) == Some(a) <==> a.List?
  {
    if a.List? { assert [] + a.items == a.items && a.items + [] == a.items; }
  }

  /** `(r1 + r2) + r3` and `r1 + (r2 + r3)` make the same action or raise an exception together, for
      anything that can be made an action. */
  lemma AddAssociative(r1: Raw, r2: Raw, r3: Raw)
    ensures var left, right := Add(r1, r2), Add(r2, r3);
            (if left.Err? then left else Add(Again(left.value), r3)) ==
            (if Create(r1).Err? then Create(r1) else if right.Err? then right else Add(r1, Again(right.value)))
  {
    var a, b, c := Create(r1), Create(r2), Create(r3);
    if a.Ok? && b.Ok? && c.Ok? {
      AppendAssociative(a.value, b.value, c.value);
      CreateAgain(Append(a.value, b.value));
      CreateAgain(Append(b.value, c.value));
    }
    if a.Ok? && b.Ok? && c.Err? { CreateAgain(Append(a.value, b.value)); }
  }

  lemma CreateAgain(a: Option<Action>)
    ensures Create(Again(a)) == Ok(a)
  {}

  // ---- Running actions ----

  /** The process: its working directory and everything else. */
  datatype World = World(cwd: string, rest: nat)

  /** A status, a build error with its status and text, or an exception on its way up. */
  datatype Outcome = Status(stat: int) | BuildError(status: int, text: string) | Raised(exception: nat)

  predicate Success(o: Outcome) { o == Status(0) }

  /** The parts of the system that actions use: running a leaf, its map of exit statuses, and changing
      the directory, which can raise an exception. */
  datatype System = System(
    execute: (nat, World) -> (World, Outcome),
    exitstat: (nat, int) -> int,
    chdirFails: (World, string) -> Option<nat>)

  /** What a caller can pass along: a directory, a map of exit statuses, and whether to run at all. */
  datatype Options = Options(chdir: Option<Option<string>>, exitstat: Option<int -> int>, execute: bool)

  function Dir(l: Leaf, o: Options): Option<string> {
    var d := if o.chdir.Some? then o.chdir.value else l.chdir;
    if d == Some("") then None else d
  }

  function ExitStat(sys: System, l: Leaf, o: Options, s: int): int {
    if o.exitstat.Some? then o.exitstat.value(s) else sys.exitstat(l.id, s)
  }

  /** The status of an action after its map of exit statuses. */
  function Mapped(sys: System, l: Leaf, o: Options, out: Outcome): Outcome {
    match out
    case Status(s) => Status(ExitStat(sys, l, o, s))
    case BuildError(s, text) => var t := ExitStat(sys, l, o, s); if t != 0 then BuildError(t, text) else Status(t)
    case Raised(e) => out
  }

  /** A single action. */
  function RunLeaf(sys: System, l: Leaf, w: World, o: Options): (World, Outcome) {
    if !o.execute then (w, Status(0))
    else
      match Dir(l, o)
      case None => var (w', out) := sys.execute(l.id, w); (w', Mapped(sys, l, o, out))
      case Some(d) =>
        if sys.chdirFails(w, d).Some? then (w, Raised(sys.chdirFails(w, d).value))
        else
          var (w', out) := sys.execute(l.id, w.(cwd := d));
          if sys.chdirFails(w', w.cwd).Some? then (w', Raised(sys.chdirFails(w', w.cwd).value))
          else (w'.(cwd := w.cwd), Mapped(sys, l, o, out))
  }

  /** An action; a list stops at the first failure. */
  function Run(sys: System, a: Action, w: World, o: Options): (World, Outcome)
    decreases a, 0
  {
    match a
    case Single(l) => RunLeaf(sys, l, w, o)
    case List(items) => RunFirst(sys, items, |items|, w, o)
  }

  /** The first `n` actions of a list. */
  function RunFirst(sys: System, items: seq<Action>, n: nat, w: World, o: Options): (World, Outcome)
    requires n <= |items|
    decreases items, n
  {
    if n == 0 then (w, Status(0))
    else
      var (w1, out1) := RunFirst(sys, items, n - 1, w, o);
      if !Success(out1) then (w1, out1) else Run(sys, items[n - 1], w1, o)
  }

  function Leaves(a: Action): seq<Leaf>
    decreases a, 0
  {
    match a
    case Single(l) => [l]
    case List(items) => LeavesFirst(items, |items|)
  }

  function LeavesFirst(items: seq<Action>, n: nat): seq<Leaf>
    requires n <= |items|
    decreases items, n
  {
    if n == 0 then [] else LeavesFirst(items, n - 1) + Leaves(items[n - 1])
  }

  /** Single actions, one after the other, up to the first failure. */
  function RunLeaves(sys: System, ls: seq<Leaf>, w: World, o: Options): (World, Outcome) {
    if ls == [] then (w, Status(0))
    else
      var (w1, out1) := RunLeaves(sys, ls[..|ls| - 1], w, o);
      if !Success(out1) then (w1, out1) else RunLeaf(sys, ls[|ls| - 1], w1, o)
  }

  lemma {:induction false} RunLeavesConcat(sys: System, a: seq<Leaf>, b: seq<Leaf>, w: World, o: Options)
    ensures RunLeaves(sys, a + b, w, o) ==
            (var (w1, out1) := RunLeaves(sys, a, w, o); if !Success(out1) then (w1, out1) else RunLeaves(sys, b, w1, o))
  {
    if b == [] {
      assert a + b == a;
    } else {
      var n := |b| - 1;
      assert (a + b)[..|a + b| - 1] == a + b[..n] && (a + b)[|a + b| - 1] == b[n];
      RunLeavesConcat(sys, a, b[..n], w, o);
    }
  }

  /** Running any tree of actions is running its leaves from left to right up to the first failure. */
  lemma {:induction false} RunIsLeaves(sys: System, a: Action, w: World, o: Options)
    ensures Run(sys, a, w, o) == RunLeaves(sys, Leaves(a), w, o)
    decreases a, 0
  {
    match a {
      case Single(l) => assert [l][..0] == [];
      case List(items) => RunFirstIsLeaves(sys, items, |items|, w, o);
    }
  }

  lemma {:induction false} RunFirstIsLeaves(sys: System, items: seq<Action>, n: nat, w: World, o: Options)
    requires n <= |items|
    ensures RunFirst(sys, items, n, w, o) == RunLeaves(sys, LeavesFirst(items, n), w, o)
    decreases items, n
  {
    if n > 0 {
      RunFirstIsLeaves(sys, items, n - 1, w, o);
      var (w1, out1) := RunFirst(sys, items, n - 1, w, o);
      RunIsLeaves(sys, items[n - 1], w1, o);
      RunLeavesConcat(sys, LeavesFirst(items, n - 1), Leaves(items[n - 1]), w, o);
    }
  }

  lemma {:induction false} LeavesFirstConcat(a: seq<Action>, b: seq<Action>, n: nat)
    requires n <= |b|
    ensures LeavesFirst(a + b, |a| + n) == LeavesFirst(a, |a|) + LeavesFirst(b, n)
    decreases n
  {
    if n == 0 {
      LeavesFirstPrefix(a + b, a, |a|);
      assert LeavesFirst(a, |a|) + [] == LeavesFirst(a, |a|);
    } else {
      LeavesFirstConcat(a, b, n - 1);
      assert (a + b)[|a| + n - 1] == b[n - 1];
      var x, y, z := LeavesFirst(a, |a|), LeavesFirst(b, n - 1), Leaves(b[n - 1]);
      assert (x + y) + z == x + (y + z);
    }
  }

  lemma {:induction false} LeavesFirstPrefix(a: seq<Action>, b: seq<Action>, n: nat)
    requires n <= |a| && n <= |b| && a[..n] == b[..n]
    ensures LeavesFirst(a, n) == LeavesFirst(b, n)
    decreases n
  {
    if n > 0 {
      assert a[n - 1] == a[..n][n - 1] && b[n - 1] == b[..n][n - 1];
      assert a[..n - 1] == a[..n][..n - 1] && b[..n - 1] == b[..n][..n - 1];
      LeavesFirstPrefix(a, b, n - 1);
    }
  }

  lemma LeavesOfOne(a: Action)
    ensures LeavesFirst([a], 1) == Leaves(a)
  {
    assert LeavesFirst([a], 0) == [];
    assert [] + Leaves(a) == Leaves(a);
  }

  lemma LeavesElements(a: Action)
    ensures LeavesFirst(Elements(Some(a)), |Elements(Some(a))|) == Leaves(a)
  {
    if a.Single? { LeavesOfOne(a); }
  }

  lemma LeavesAppend(a1: Action, a2: Action)
    ensures Append(Some(a1), Some(a2)).Some?
    ensures Leaves(Append(Some(a1), Some(a2)).value) == Leaves(a1) + Leaves(a2)
  {
    var x, y := Elements(Some(a1)), Elements(Some(a2));
    AppendElements(Some(a1), Some(a2));
    LeavesElements(a1);
    LeavesElements(a2);
    LeavesFirstConcat(x, y, |y|);
    assert Leaves(List(x + y)) == LeavesFirst(x + y, |x + y|);
  }

  /** Running `a1 + a2` is running `a1` and then, only if its status is zero, `a2`. */
  lemma RunAppend(sys: System, a1: Action, a2: Action, w: World, o: Options)
    ensures Append(Some(a1), Some(a2)).Some?
    ensures Run(sys, Append(Some(a1), Some(a2)).value, w, o) ==
            (var (w1, out1) := Run(sys, a1, w, o); if !Success(out1) then (w1, out1) else Run(sys, a2, w1, o))
  {
    LeavesAppend(a1, a2);
    var both := Append(Some(a1), Some(a2)).value;
    RunIsLeaves(sys, both, w, o);
    RunIsLeaves(sys, a1, w, o);
    RunLeavesConcat(sys, Leaves(a1), Leaves(a2), w, o);
    RunIsLeaves(sys, a2, Run(sys, a1, w, o).0, o);
  }

  // ---- The working directory ----

  /** Running the leaf brings the process back: it has no directory and stays where it is, or it has one
      and that cannot be entered, or the old directory can be entered again from where the leaf ends, or
      the leaf went back there itself. */
  predicate LeafReturns(sys: System, l: Leaf, w: World, o: Options) {
    !o.execute ||
    match Dir(l, o)
    case None => sys.execute(l.id, w).0.cwd == w.cwd
    case Some(d) =>
      sys.chdirFails(w, d).Some? ||
      var w1 := sys.execute(l.id, w.(cwd := d)).0;
      sys.chdirFails(w1, w.cwd).None? || w1.cwd == w.cwd
  }

  /** The process is where it was after a leaf, whether that ends with a status, a build error or an
      exception, exactly when the leaf returns. */
  lemma LeafCwdExactly(sys: System, l: Leaf, w: World, o: Options)
    ensures RunLeaf(sys, l, w, o).0.cwd == w.cwd <==> LeafReturns(sys, l, w, o)
  {
  }

  /** Every leaf that the run gets to returns. */
  ghost predicate RunReturns(sys: System, ls: seq<Leaf>, w: World, o: Options) {
    forall i | 0 <= i < |ls| :: ReturnsAt(sys, ls, i, w, o)
  }

  predicate ReturnsAt(sys: System, ls: seq<Leaf>, i: nat, w: World, o: Options)
    requires i < |ls|
  {
    var (w1, out1) := RunLeaves(sys, ls[..i], w, o);
    Success(out1) ==> LeafReturns(sys, ls[i], w1, o)
  }

  /** The process is where it was after every leaf of a run exactly when every leaf that the run gets to
      returns. */
  lemma LeavesCwdExactly(sys: System, ls: seq<Leaf>, w: World, o: Options)
    ensures (forall i | 0 <= i <= |ls| :: RunLeaves(sys, ls[..i], w, o).0.cwd == w.cwd) <==> RunReturns(sys, ls, w, o)
  {
    if RunReturns(sys, ls, w, o) {
      forall i | 0 <= i <= |ls| ensures RunLeaves(sys, ls[..i], w, o).0.cwd == w.cwd { LeavesRestoreCwd(sys, ls, i, w, o); }
    }
    if forall i | 0 <= i <= |ls| :: RunLeaves(sys, ls[..i], w, o).0.cwd == w.cwd {
      forall i | 0 <= i < |ls| ensures ReturnsAt(sys, ls, i, w, o) {
        RunOneMore(sys, ls, i, w, o);
        assert RunLeaves(sys, ls[..i + 1], w, o).0.cwd == w.cwd == RunLeaves(sys, ls[..i], w, o).0.cwd;
        LeafCwdExactly(sys, ls[i], RunLeaves(sys, ls[..i], w, o).0, o);
      }
    }
  }

  lemma RunOneMore(sys: System, ls: seq<Leaf>, i: nat, w: World, o: Options)
    requires i < |ls|
    ensures RunLeaves(sys, ls[..i + 1], w, o) ==
            (var (w1, out1) := RunLeaves(sys, ls[..i], w, o); if !Success(out1) then (w1, out1) else RunLeaf(sys, ls[i], w1, o))
  {
    assert ls[..i + 1][..i] == ls[..i];
  }

  lemma {:induction false} LeavesRestoreCwd(sys: System, ls: seq<Leaf>, n: nat, w: World, o: Options)
    requires n <= |ls| && RunReturns(sys, ls, w, o)
    ensures RunLeaves(sys, ls[..n], w, o).0.cwd == w.cwd
  {
    if n > 0 {
      LeavesRestoreCwd(sys, ls, n - 1, w, o);
      RunOneMore(sys, ls, n - 1, w, o);
      assert ReturnsAt(sys, ls, n - 1, w, o);
      LeafCwdExactly(sys, ls[n - 1], RunLeaves(sys, ls[..n - 1], w, o).0, o);
    }
  }

  /** However a tree of actions ends, the process is where it was, if every leaf the run gets to
      returns. */
  lemma RunRestoresCwd(sys: System, a: Action, w: World, o: Options)
    requires RunReturns(sys, Leaves(a), w, o)
    ensures Run(sys, a, w, o).0.cwd == w.cwd
  {
    RunIsLeaves(sys, a, w, o);
    LeavesRestoreCwd(sys, Leaves(a), |Leaves(a)|, w, o);
    assert Leaves(a)[..|Leaves(a)|] == Leaves(a);
  }

  /** That is so, for one, if leaves without a directory stay where they are, and the directory the run
      began in can always be entered. */
  lemma SettledReturns(sys: System, ls: seq<Leaf>, w: World, o: Options)
    requires forall l, v | l in ls && Dir(l, o).None? :: sys.execute(l.id, v).0.cwd == v.cwd
    requires forall v :: sys.chdirFails(v, w.cwd).None?
    ensures RunReturns(sys, ls, w, o)
  {
    forall i | 0 <= i < |ls| ensures ReturnsAt(sys, ls, i, w, o) { SettledUpTo(sys, ls, i, w, o); }
  }

  lemma {:induction false} SettledUpTo(sys: System, ls: seq<Leaf>, i: nat, w: World, o: Options)
    requires i < |ls| && forall l, v | l in ls && Dir(l, o).None? :: sys.execute(l.id, v).0.cwd == v.cwd
    requires forall v :: sys.chdirFails(v, w.cwd).None?
    ensures RunLeaves(sys, ls[..i], w, o).0.cwd == w.cwd && ReturnsAt(sys, ls, i, w, o)
  {
    assert ls[i] in ls;
    if i > 0 {
      SettledUpTo(sys, ls, i - 1, w, o);
      RunOneMore(sys, ls, i - 1, w, o);
      LeafCwdExactly(sys, ls[i - 1], RunLeaves(sys, ls[..i - 1], w, o).0, o);
    }
  }

  // ---- The code ----

  lemma {:induction false} FailureStays(sys: System, items: seq<Action>, i: nat, n: nat, w: World, o: Options)
    requires i <= n <= |items| && !Success(RunFirst(sys, items, i, w, o).1)
    ensures RunFirst(sys, items, n, w, o) == RunFirst(sys, items, i, w, o)
    decreases n
  {
    if i < n { FailureStays(sys, items, i, n - 1, w, o); }
  }

  class Process {
    var world: World

    constructor (world: World)
      ensures this.world == world
    { this.world := world; }

    /** `os.chdir`. */
    method Chdir(sys: System, dir: string) returns (raised: Option<nat>)
      modifies this
      ensures raised == sys.chdirFails(old(world), dir)
      ensures world == if raised.Some? then old(world) else old(world).(cwd := dir)
    {
      raised := sys.chdirFails(world, dir);
      if raised.None? { world := world.(cwd := dir); }
    }

    /** `_ActionAction.__call__`: save the directory, change it, run, and change back in any case. */
    method CallLeaf(sys: System, l: Leaf, o: Options) returns (stat: Outcome)
      modifies this
      ensures (world, stat) == RunLeaf(sys, l, old(world), o)
    {
      var chdir := Dir(l, o);
      var saveCwd := world.cwd;
      stat := Status(0);
      if o.execute {
        if chdir.Some? {
          var raised := Chdir(sys, chdir.value);
          if raised.Some? { return Raised(raised.value); }
        }
        var (after, out) := sys.execute(l.id, world);
        world := after;
        stat := Mapped(sys, l, o, out);
        if chdir.Some? {
          var raised := Chdir(sys, saveCwd);
          if raised.Some? { return Raised(raised.value); }
        }
      }
    }

    /** `__call__` of a list: the loop stops at the first status that is not zero. */
    method Call(sys: System, a: Action, o: Options) returns (stat: Outcome)
      modifies this
      ensures (world, stat) == Run(sys, a, old(world), o)
      decreases a
    {
      match a {
        case Single(l) => stat := CallLeaf(sys, l, o);
        case List(items) =>
          var i := 0;
          while i < |items|
            invariant 0 <= i <= |items|
            invariant RunFirst(sys, items, i, old(world), o) == (world, Status(0))
          {
            stat := Call(sys, items[i], o);
            if !Success(stat) {
              FailureStays(sys, items, i + 1, |items|, old(world), o);
              return;
            }
            i := i + 1;
          }
          stat := Status(0);
      }
    }
  }

  // ---- The marks in front of a command ----

  predicate Mark(c: char) { c == '@' || c == '-' }

  /** `CommandAction.process`, after substitution: the marks in front of the first word are taken off,
      "@" makes the command silent and "-" makes it ignore errors; a first word that was nothing but
      marks is dropped.  Everything else is left alone. */
  method StripMarks(cmds: seq<seq<string>>) returns (result: seq<seq<string>>, ignore: bool, silent: bool)
    ensures cmds == [] || cmds[0] == [] ==> result == cmds && !ignore && !silent
    ensures cmds != [] && cmds[0] != [] ==>
              exists n: nat :: Marked(cmds[0][0], n) &&
                var marks, word := cmds[0][0][..n], cmds[0][0][n..];
                && (silent <==> '@' in marks) && (ignore <==> '-' in marks)
                && result == [(if word == "" then [] else [word]) + cmds[0][1..]] + cmds[1..]
  {
    silent, ignore := false, false;
    if cmds == [] || cmds[0] == [] {
      return cmds, false, false;
    }
    var word := cmds[0][0];
    ghost var n := 0;
    while word != "" && Mark(word[0])
      invariant n <= |cmds[0][0]| && word == cmds[0][0][n..]
      invariant forall c | c in cmds[0][0][..n] :: Mark(c)
      invariant (silent <==> '@' in cmds[0][0][..n]) && (ignore <==> '-' in cmds[0][0][..n])
      decreases |word|
    {
      assert cmds[0][0][..n + 1] == cmds[0][0][..n] + [word[0]];
      if word[0] == '@' { silent := true; } else { ignore := true; }
      word := word[1..];
      n := n + 1;
    }
    assert Marked(cmds[0][0], n);
    var first := if word == "" then cmds[0][1..] else [word] + cmds[0][1..];
    assert first == (if word == "" then [] else [word]) + cmds[0][1..];
    result := [first] + cmds[1..];
  }

  /** The first `n` characters are the marks in front of a word. */
  ghost predicate Marked(word: string, n: nat) {
    n <= |word| && (forall c | c in word[..n] :: Mark(c)) && (n < |word| ==> !Mark(word[n]))
  }

  /** A word has only one run of marks in front, so what `StripMarks` returns is determined. */
  lemma MarksUnique(word: string, m: nat, n: nat)
    requires Marked(word, m) && Marked(word, n)
    ensures m == n
  {
    if m < n { MarkAt(word, n, m); }
    if n < m { MarkAt(word, m, n); }
  }

  lemma MarkAt(word: string, n: nat, i: nat)
    requires Marked(word, n) && i < n
    ensures i < |word| && Mark(word[i])
  {
    assert word[i] == word[..n][i];
  }
}
