/** How single actions and trees of actions end, and what is made of the things given for actions. */
module ActionRuns {
  import opened Std
  import opened Actions

  // ---- A single action ----

  /** The directory the action is to run in: the caller's, if the caller names one, else its own. */
  predicate Asked(l: Leaf, o: Options, d: string) {
    d != "" && (o.chdir == Some(Some(d)) || (o.chdir == None && l.chdir == Some(d)))
  }

  /** No change of the directory is asked for and the action starts where the process is; or the process
      gets there, and back from where the action leaves it. */
  ghost predicate Starts(sys: System, l: Leaf, w: World, o: Options, start: World) {
    || (start == w && forall d :: !Asked(l, o, d))
    || (exists d :: Asked(l, o, d) && start == w.(cwd := d) && sys.chdirFails(w, d).None? &&
                    sys.chdirFails(sys.execute(l.id, start).0, w.cwd).None?)
  }

  /** The map of exit statuses in force: the caller's, else the action's. */
  function Stat(sys: System, l: Leaf, o: Options): int -> int {
    match o.exitstat
    case Some(f) => f
    case None => s => sys.exitstat(l.id, s)
  }

  /** How an action that is executed ends: a number, and the status of a build error, go through the map,
      and a build error whose status becomes zero is none; an exception goes up as it is. */
  lemma LeafEnds(sys: System, l: Leaf, w: World, o: Options, start: World)
    requires o.execute && Starts(sys, l, w, o, start)
    ensures var (mid, ended) := sys.execute(l.id, start);
            var (after, out) := RunLeaf(sys, l, w, o);
            && after == (if exists d :: Asked(l, o, d) then mid.(cwd := w.cwd) else mid)
            && match ended
               case Status(s) => out == Status(Stat(sys, l, o)(s))
               case BuildError(s, text) =>
                 var t := Stat(sys, l, o)(s);
                 if t == 0 then out == Status(0) else out == BuildError(t, text)
               case Raised(e) => out == Raised(e)
  {
    if d :| Asked(l, o, d) {
      assert Dir(l, o) == Some(d);
    } else {
      assert forall d :: Dir(l, o) == Some(d) ==> Asked(l, o, d);
    }
  }

  /** An action succeeds if it is not executed, or gets to its directory and back and its status is mapped
      to zero. */
  ghost predicate Succeeds(sys: System, l: Leaf, w: World, o: Options) {
    !o.execute ||
    exists start :: Starts(sys, l, w, o, start) && Zero(sys.execute(l.id, start).1, Stat(sys, l, o))
  }

  predicate Zero(ended: Outcome, map_: int -> int) {
    match ended
    case Status(s) => map_(s) == 0
    case BuildError(s, _) => map_(s) == 0
    case Raised(_) => false
  }

  lemma LeafSucceedsExactly(sys: System, l: Leaf, w: World, o: Options)
    ensures Success(RunLeaf(sys, l, w, o).1) <==> Succeeds(sys, l, w, o)
  {
    if o.execute {
      if start :| Starts(sys, l, w, o, start) {
        LeafEnds(sys, l, w, o, start);
        OneStart(sys, l, w, o, start);
      } else {
        NoStart(sys, l, w, o);
      }
    }
  }

  lemma OneStart(sys: System, l: Leaf, w: World, o: Options, start: World)
    requires Starts(sys, l, w, o, start)
    ensures forall other | Starts(sys, l, w, o, other) :: other == start
  {}

  lemma NoStart(sys: System, l: Leaf, w: World, o: Options)
    requires o.execute && forall start :: !Starts(sys, l, w, o, start)
    ensures RunLeaf(sys, l, w, o).1.Raised?
  {
    if Dir(l, o).None? {
      assert Starts(sys, l, w, o, w) by { assert forall d :: !Asked(l, o, d); }
    } else {
      var d := Dir(l, o).value;
      assert Asked(l, o, d);
      if sys.chdirFails(w, d).None? { assert !Starts(sys, l, w, o, w.(cwd := d)); }
    }
  }

  // ---- A tree ----

  /** The process before each leaf and after the last, if every leaf were run. */
  ghost predicate Chain(sys: System, ls: seq<Leaf>, o: Options, ws: seq<World>) {
    |ws| == |ls| + 1 && forall i | 0 <= i < |ls| :: ws[i + 1] == RunLeaf(sys, ls[i], ws[i], o).0
  }

  /** All leaves before `n` succeed. */
  ghost predicate GetsTo(sys: System, ls: seq<Leaf>, o: Options, ws: seq<World>, n: nat)
    requires Chain(sys, ls, o, ws) && n <= |ls|
  {
    forall i | 0 <= i < n :: Succeeds(sys, ls[i], ws[i], o)
  }

  lemma {:induction false} LeavesEnd(sys: System, ls: seq<Leaf>, o: Options, ws: seq<World>, n: nat)
    requires Chain(sys, ls, o, ws) && n <= |ls|
    ensures Success(RunLeaves(sys, ls[..n], ws[0], o).1) <==> GetsTo(sys, ls, o, ws, n)
    ensures GetsTo(sys, ls, o, ws, n) ==> RunLeaves(sys, ls[..n], ws[0], o) == (ws[n], Status(0))
    ensures n < |ls| && GetsTo(sys, ls, o, ws, n) && !Succeeds(sys, ls[n], ws[n], o) ==>
              forall m | n < m <= |ls| :: RunLeaves(sys, ls[..m], ws[0], o) == RunLeaf(sys, ls[n], ws[n], o)
  {
    if n > 0 {
      LeavesEnd(sys, ls, o, ws, n - 1);
      RunOneMore(sys, ls, n - 1, ws[0], o);
      LeafSucceedsExactly(sys, ls[n - 1], ws[n - 1], o);
    }
    if n < |ls| && GetsTo(sys, ls, o, ws, n) && !Succeeds(sys, ls[n], ws[n], o) {
      forall m | n < m <= |ls| ensures RunLeaves(sys, ls[..m], ws[0], o) == RunLeaf(sys, ls[n], ws[n], o) {
        FailedAt(sys, ls, o, ws, n, m);
      }
    }
  }

  lemma {:induction false} FailedAt(sys: System, ls: seq<Leaf>, o: Options, ws: seq<World>, n: nat, m: nat)
    requires Chain(sys, ls, o, ws) && n < m <= |ls| && !Succeeds(sys, ls[n], ws[n], o)
    requires RunLeaves(sys, ls[..n], ws[0], o) == (ws[n], Status(0))
    ensures RunLeaves(sys, ls[..m], ws[0], o) == RunLeaf(sys, ls[n], ws[n], o)
    decreases m
  {
    RunOneMore(sys, ls, m - 1, ws[0], o);
    LeafSucceedsExactly(sys, ls[n], ws[n], o);
    if m > n + 1 { FailedAt(sys, ls, o, ws, n, m - 1); }
  }

  /** A tree of actions ends with status zero if and only if each of its leaves, started where the one
      before it left the process, succeeds; otherwise it ends as the first leaf that does not. */
  lemma TreeSucceedsExactly(sys: System, a: Action, o: Options, ws: seq<World>)
    requires Chain(sys, Leaves(a), o, ws)
    ensures var ls := Leaves(a);
            && (Success(Run(sys, a, ws[0], o).1) <==> forall i | 0 <= i < |ls| :: Succeeds(sys, ls[i], ws[i], o))
            && (Success(Run(sys, a, ws[0], o).1) ==> Run(sys, a, ws[0], o) == (ws[|ls|], Status(0)))
            && forall n | 0 <= n < |ls| && GetsTo(sys, ls, o, ws, n) && !Succeeds(sys, ls[n], ws[n], o) ::
                 Run(sys, a, ws[0], o) == RunLeaf(sys, ls[n], ws[n], o)
  {
    var ls := Leaves(a);
    RunIsLeaves(sys, a, ws[0], o);
    assert ls[..|ls|] == ls;
    LeavesEnd(sys, ls, o, ws, |ls|);
    forall n | 0 <= n < |ls| && GetsTo(sys, ls, o, ws, n) && !Succeeds(sys, ls[n], ws[n], o)
      ensures Run(sys, a, ws[0], o) == RunLeaf(sys, ls[n], ws[n], o)
    {
      LeavesEnd(sys, ls, o, ws, n);
    }
  }

  // ---- What is given for an action ----

  /** The single actions that an element of a list stands for. */
  function GivenLeaves(r: Raw): seq<Leaf> {
    match r
    case Built(a) => Leaves(a)
    case Lines(first, more) => [first] + more
    case Items(_, command) => [command]
    case Callable(leaf) => [leaf]
    case Number | Other => []
  }

  function AllGivenLeaves(rs: seq<Raw>): seq<Leaf> {
    if rs == [] then [] else GivenLeaves(rs[0]) + AllGivenLeaves(rs[1..])
  }

  /** No action can be made of it as an element of a list: a number, or the words of a command that are
      not all text. */
  ghost predicate Refused(r: Raw) { r.Number? || (r.Items? && exists x :: x in r.raws && x.Items?) }

  lemma {:induction false} SinglesLeaves(ls: seq<Leaf>, n: nat)
    requires n <= |ls|
    ensures LeavesFirst(Singles(ls), n) == ls[..n]
  {
    if n > 0 { SinglesLeaves(ls, n - 1); }
  }

  lemma ItemMade(r: Raw)
    ensures CreateItem(r).Err? <==> Refused(r)
    ensures CreateItem(r).Ok? ==> CreateItem(r).value.None? == r.Other?
    ensures CreateItem(r).Ok? && CreateItem(r).value.Some? ==> Leaves(CreateItem(r).value.value) == GivenLeaves(r)
  {
    if r.Lines? && r.more != [] {
      var ls := [r.first] + r.more;
      SinglesLeaves(ls, |ls|);
      assert ls[..|ls|] == ls;
    } else if r.Lines? {
      assert [r.first] + r.more == [r.first];
    }
  }

  lemma {:induction false} ItemsMade(rs: seq<Raw>)
    ensures CreateItems(rs).Err? <==> exists r :: r in rs && Refused(r)
    ensures CreateItems(rs).Ok? ==>
              var acts := CreateItems(rs).value; LeavesFirst(acts, |acts|) == AllGivenLeaves(rs) && |acts| == NotNothing(rs)
  {
    if rs != [] {
      ItemMade(rs[0]);
      ItemsMade(rs[1..]);
      assert rs == [rs[0]] + rs[1..];
      if CreateItems(rs).Ok? { FirstMade(rs); }
    }
  }

  lemma {:induction false} FirstMade(rs: seq<Raw>)
    requires rs != [] && CreateItems(rs).Ok?
    requires var rest := CreateItems(rs[1..]).value;
             LeavesFirst(rest, |rest|) == AllGivenLeaves(rs[1..]) && |rest| == NotNothing(rs[1..])
    ensures var acts := CreateItems(rs).value; LeavesFirst(acts, |acts|) == AllGivenLeaves(rs) && |acts| == NotNothing(rs)
  {
    ItemMade(rs[0]);
    var first, rest, acts := CreateItem(rs[0]).value, CreateItems(rs[1..]).value, CreateItems(rs).value;
    if first.Some? {
      assert acts == [first.value] + rest;
      OneMore(first.value, rest);
    } else {
      assert acts == [] + rest == rest;
      assert [] + AllGivenLeaves(rs[1..]) == AllGivenLeaves(rs[1..]);
    }
  }

  lemma {:induction false} OneMore(a: Action, rest: seq<Action>)
    ensures LeavesFirst([a] + rest, 1 + |rest|) == Leaves(a) + LeavesFirst(rest, |rest|)
  {
    LeavesFirstConcat([a], rest, |rest|);
    LeavesOfOne(a);
  }

  /** How many elements an action is made of. */
  function NotNothing(rs: seq<Raw>): nat {
    if rs == [] then 0 else (if rs[0].Other? then 0 else 1) + NotNothing(rs[1..])
  }

  /** `Action(...)` runs, from left to right, what was given, whatever the nesting; it raises exactly for
      what no action can be made of; and a list stands for its only element, or is a list of actions. */
  lemma CreateExactly(r: Raw)
    ensures Create(r).Err? <==> if r.Items? then exists x :: x in r.raws && Refused(x) else r.Number?
    ensures Create(r).Ok? ==> (Create(r).value.None? <==> r.Other?)
    ensures Create(r).Ok? && Create(r).value.Some? ==>
              Leaves(Create(r).value.value) == if r.Items? then AllGivenLeaves(r.raws) else GivenLeaves(r)
    ensures Create(r).Ok? && r.Items? && NotNothing(r.raws) != 1 ==>
              Create(r).value.value.List? && |Create(r).value.value.items| == NotNothing(r.raws)
  {
    if r.Items? {
      ItemsMade(r.raws);
      if CreateItems(r.raws).Ok? {
        var acts := CreateItems(r.raws).value;
        if |acts| == 1 { assert acts == [acts[0]]; LeavesOfOne(acts[0]); }
      }
    } else {
      ItemMade(r);
    }
  }
}
