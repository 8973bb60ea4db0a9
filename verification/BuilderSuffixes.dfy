/** The source suffixes of a graph of builders.  `src_suffixes` appends into the very list that the memo
    holds, while it recurses; here the lists are objects on the heap, and what is proved is that the
    sharing is harmless. */
module BuilderSuffixes {
  import opened Std
  import Dedup

  /** A construction environment: how it expands a suffix, and its named builders. */
  class Env {
    const subst: string -> string
    const builders: map<string, Builder>

    constructor (subst: string -> string, builders: map<string, Builder>)
      ensures this.subst == subst && this.builders == builders
    {
      this.subst := subst;
      this.builders := builders;
    }
  }

  /** A source builder is given directly or by its name in the environment. */
  datatype Source = Direct(builder: Builder) | Named(name: string)

  /** A list object. */
  class StrList {
    var items: seq<string>

    constructor (items: seq<string>)
      ensures this.items == items
    { this.items := items; }
  }

  // ---- The graph, as a value ----

  /** The source builders of every builder. */
  type Graph = map<Builder, seq<Source>>

  /** The source is the builder, or its name in the environment. */
  predicate Stands(x: Source, e: Env, c: Builder) {
    x == Direct(c) || (x.Named? && x.name in e.builders && e.builders[x.name] == c)
  }

  /** The source is not a name that the environment does not have. */
  predicate Known(x: Source, e: Env) { x.Direct? || x.name in e.builders }

  /** The builders a list of sources stands for; an unknown name is skipped. */
  function Resolve(sources: seq<Source>, env: Env): (r: seq<Builder>)
  {
    if sources == [] then []
    else
      var rest := Resolve(sources[1..], env);
      match sources[0]
      case Direct(b) => [b] + rest
      case Named(name) => if name in env.builders then [env.builders[name]] + rest else rest
  }

  lemma {:induction false} ResolveMember(sources: seq<Source>, e: Env, c: Builder)
    ensures c in Resolve(sources, e) <==> exists i :: 0 <= i < |sources| && Stands(sources[i], e, c)
  {
    if sources != [] {
      ResolveMember(sources[1..], e, c);
      if i :| 0 <= i < |sources| && Stands(sources[i], e, c) {
        if i > 0 { assert Stands(sources[1..][i - 1], e, c); }
      }
      if i :| 0 <= i < |sources[1..]| && Stands(sources[1..][i], e, c) { assert Stands(sources[i + 1], e, c); }
    }
  }

  lemma EdgeResolves(g: Graph, e: Env, b: Builder, c: Builder)
    requires b in g
    ensures Edge(g, e, b, c) <==> c in Resolve(g[b], e)
  {
    ResolveMember(g[b], e, c);
  }

  /** How many of the first sources are known. */
  function KnownFirst(sources: seq<Source>, e: Env, n: nat): nat
    requires n <= |sources|
  {
    if n == 0 then 0 else KnownFirst(sources, e, n - 1) + if Known(sources[n - 1], e) then 1 else 0
  }

  /** One builder for every known source, in the order of the sources. */
  ghost predicate InOrder(sources: seq<Source>, e: Env, r: seq<Builder>) {
    && |r| == KnownFirst(sources, e, |sources|)
    && forall i: nat | i < |sources| && Known(sources[i], e) :: StandsAt(sources, e, r, i)
  }

  ghost predicate StandsAt(sources: seq<Source>, e: Env, r: seq<Builder>, i: nat)
    requires i < |sources|
  {
    KnownFirst(sources, e, i) < |r| && Stands(sources[i], e, r[KnownFirst(sources, e, i)])
  }

  lemma {:induction false} ResolveFirst(sources: seq<Source>, e: Env, n: nat)
    requires n <= |sources|
    ensures |Resolve(sources[..n], e)| == KnownFirst(sources, e, n)
    ensures forall i: nat | i < n && Known(sources[i], e) :: StandsAt(sources, e, Resolve(sources[..n], e), i)
  {
    if n > 0 {
      ResolveFirst(sources, e, n - 1);
      var before, x := Resolve(sources[..n - 1], e), sources[n - 1];
      assert sources[..n] == sources[..n - 1] + [x];
      ResolveSnoc(sources[..n - 1], x, e);
      assert [x][1..] == [];
      forall i: nat | i < n && Known(sources[i], e) ensures StandsAt(sources, e, Resolve(sources[..n], e), i) {
        if i < n - 1 { assert StandsAt(sources, e, before, i); }
      }
    }
  }

  lemma {:induction false} KnownAt(sources: seq<Source>, e: Env, n: nat, k: nat) returns (i: nat)
    requires n <= |sources| && k < KnownFirst(sources, e, n)
    ensures i < n && Known(sources[i], e) && KnownFirst(sources, e, i) == k
  {
    if k < KnownFirst(sources, e, n - 1) { i := KnownAt(sources, e, n - 1, k); } else { i := n - 1; }
  }

  /** What `Resolve` is: one builder for every source but unknown names, in the order of the sources. */
  lemma {:induction false} ResolveExactly(sources: seq<Source>, e: Env, r: seq<Builder>)
    ensures r == Resolve(sources, e) <==> InOrder(sources, e, r)
  {
    var r0 := Resolve(sources, e);
    assert sources[..|sources|] == sources;
    ResolveFirst(sources, e, |sources|);
    if InOrder(sources, e, r) {
      forall k: nat | k < |r| ensures r[k] == r0[k] {
        var i := KnownAt(sources, e, |sources|, k);
        assert StandsAt(sources, e, r, i) && StandsAt(sources, e, r0, i);
      }
    }
  }

  /** Every builder ranks above its source builders, so that the graph has no cycle. */
  ghost predicate Acyclic(g: Graph, envs: set<Env>) {
    forall b, e, c | b in g && e in envs && c in Resolve(g[b], e) :: c in g && c.rank < b.rank
  }

  /** The builder's own suffixes, expanded. */
  function Own(b: Builder, e: Env): (r: seq<string>)
    ensures |r| == |b.srcSuffix| && forall i | 0 <= i < |r| :: r[i] == e.subst(b.srcSuffix[i])
  {
    seq(|b.srcSuffix|, i requires 0 <= i < |b.srcSuffix| => e.subst(b.srcSuffix[i]))
  }

  /** The suffixes of a builder and of everything below it. */
  ghost function Reach(g: Graph, envs: set<Env>, b: Builder, e: Env): set<string>
    requires Acyclic(g, envs) && b in g && e in envs
    decreases b.rank
  {
    (set s | s in Own(b, e)) + (set c, s | c in Resolve(g[b], e) && s in Reach(g, envs, c, e) :: s)
  }

  /** Some source of `b` stands for `c`. */
  ghost predicate Edge(g: Graph, e: Env, b: Builder, c: Builder) {
    b in g && exists i :: 0 <= i < |g[b]| && Stands(g[b][i], e, c)
  }

  /** A path in the graph. */
  ghost predicate Path(g: Graph, e: Env, p: seq<Builder>) {
    p != [] && (forall b | b in p :: b in g) && forall i | 0 <= i < |p| - 1 :: Edge(g, e, p[i], p[i + 1])
  }

  lemma PathCons(g: Graph, e: Env, b: Builder, p: seq<Builder>)
    requires Path(g, e, p) && Edge(g, e, b, p[0])
    ensures Path(g, e, [b] + p)
  {}

  lemma PathTail(g: Graph, e: Env, p: seq<Builder>)
    requires Path(g, e, p) && |p| > 1
    ensures Path(g, e, p[1..]) && Edge(g, e, p[0], p[1])
  {
    var i := 0;
    assert Edge(g, e, p[i], p[i + 1]);
    forall i | 0 <= i < |p[1..]| - 1 ensures Edge(g, e, p[1..][i], p[1..][i + 1]) {
      assert Edge(g, e, p[i + 1], p[i + 1 + 1]);
    }
  }

  lemma {:induction false} PathTo(g: Graph, envs: set<Env>, b: Builder, e: Env, s: string) returns (p: seq<Builder>)
    requires Acyclic(g, envs) && b in g && e in envs && s in Reach(g, envs, b, e)
    ensures Path(g, e, p) && p[0] == b && s in Own(p[|p| - 1], e)
    decreases b.rank
  {
    if s in Own(b, e) {
      p := [b];
    } else {
      var c :| c in Resolve(g[b], e) && s in Reach(g, envs, c, e);
      var q := PathTo(g, envs, c, e, s);
      EdgeResolves(g, e, b, c);
      PathCons(g, e, b, q);
      p := [b] + q;
    }
  }

  lemma {:induction false} PathReaches(g: Graph, envs: set<Env>, p: seq<Builder>, e: Env, s: string)
    requires Acyclic(g, envs) && e in envs && Path(g, e, p) && s in Own(p[|p| - 1], e)
    ensures p[0] in g && s in Reach(g, envs, p[0], e)
    decreases |p|
  {
    assert p[0] in p;
    if |p| > 1 {
      PathTail(g, e, p);
      EdgeResolves(g, e, p[0], p[1]);
      PathReaches(g, envs, p[1..], e, s);
    }
  }

  /** A suffix is below a builder exactly when some path leads to a builder that has it. */
  lemma ReachIsReachable(g: Graph, envs: set<Env>, b: Builder, e: Env, s: string)
    requires Acyclic(g, envs) && b in g && e in envs
    ensures s in Reach(g, envs, b, e) <==> exists p :: Path(g, e, p) && p[0] == b && s in Own(p[|p| - 1], e)
  {
    if s in Reach(g, envs, b, e) { var p := PathTo(g, envs, b, e, s); }
    if p :| Path(g, e, p) && p[0] == b && s in Own(p[|p| - 1], e) { PathReaches(g, envs, p, e, s); }
  }

  // ---- Lists ----

  /** The loop that appends what is not there yet. */
  function AppendNew(items: seq<string>, more: seq<string>): seq<string>
    decreases more
  {
    if more == [] then items
    else AppendNew(if more[0] in items then items else items + [more[0]], more[1..])
  }

  /** A list that grew: the old items are in front, and every item behind them is new. */
  ghost predicate Grown(old_: seq<string>, new_: seq<string>) {
    old_ <= new_ && forall i | |old_| <= i < |new_| :: new_[i] !in old_
  }

  lemma GrownTrans(a: seq<string>, b: seq<string>, c: seq<string>)
    requires Grown(a, b) && Grown(b, c)
    ensures Grown(a, c)
  {
    forall x | x in a ensures x in b {
      var k :| 0 <= k < |a| && a[k] == x;
      assert b[k] == x;
    }
    forall i | |a| <= i < |c| ensures c[i] !in a {
      if i < |b| { assert c[i] == b[i]; }
    }
  }

  lemma {:induction false} AppendNewGrows(items: seq<string>, more: seq<string>)
    ensures Grown(items, AppendNew(items, more))
    ensures forall s :: s in AppendNew(items, more) <==> s in items || s in more
    decreases more
  {
    if more != [] {
      var next := if more[0] in items then items else items + [more[0]];
      assert Grown(items, next);
      AppendNewGrows(next, more[1..]);
      GrownTrans(items, next, AppendNew(items, more));
      assert more == [more[0]] + more[1..];
    }
  }

  /** Appending several lists, one after the other. */
  function AppendLists(items: seq<string>, lists: seq<seq<string>>): seq<string> {
    if lists == [] then items else AppendNew(AppendLists(items, lists[..|lists| - 1]), lists[|lists| - 1])
  }

  lemma {:induction false} AppendNewConcat(items: seq<string>, a: seq<string>, b: seq<string>)
    ensures AppendNew(items, a + b) == AppendNew(AppendNew(items, a), b)
    decreases a
  {
    if a == [] {
      assert a + b == b;
    } else {
      assert (a + b)[1..] == a[1..] + b;
      AppendNewConcat(if a[0] in items then items else items + [a[0]], a[1..], b);
    }
  }

  /** What is appended: the items that are not there yet, once each, in the order they come in. */
  lemma {:induction false} AppendNewIs(items: seq<string>, more: seq<string>)
    ensures AppendNew(items, more) == items + Dedup.Without(Dedup.KeepFirst(more), items)
    decreases more
  {
    if more == [] {
      assert items + [] == items;
    } else {
      var n := |more| - 1;
      var p, y := more[..n], more[n];
      assert more == p + [y];
      AppendNewConcat(items, p, [y]);
      AppendNewIs(items, p);
      var now := AppendNew(items, p);
      assert AppendNew(now, [y]) == if y in now then now else now + [y] by { assert [y][1..] == []; }
      Dedup.WithoutSplit(Dedup.KeepFirst(p), [y], items);
      Dedup.WithoutOne(y, items);
    }
  }

  function Concat(lists: seq<seq<string>>): seq<string> {
    if lists == [] then [] else Concat(lists[..|lists| - 1]) + lists[|lists| - 1]
  }

  lemma {:induction false} AppendListsConcat(items: seq<string>, lists: seq<seq<string>>)
    ensures AppendLists(items, lists) == AppendNew(items, Concat(lists))
  {
    if lists != [] {
      var n := |lists| - 1;
      AppendListsConcat(items, lists[..n]);
      AppendNewConcat(items, Concat(lists[..n]), lists[n]);
    }
  }

  /** Appending to a list that is already part of the way gives the same list. */
  lemma {:induction false} AppendFromPrefix(items: seq<string>, base: seq<string>, more: seq<string>)
    requires items <= base <= AppendNew(items, more)
    ensures AppendNew(base, more) == AppendNew(items, more)
    decreases more
  {
    if more != [] && base != items {
      var x := more[0];
      var next := if x in items then items else items + [x];
      AppendNewGrows(next, more[1..]);
      assert next <= base by {
        if x !in items { assert base[|items|] == AppendNew(items, more)[|items|] == next[|items|]; }
      }
      assert x in base by {
        if x in items { var i :| 0 <= i < |items| && items[i] == x; assert base[i] == x; } else { assert base[|items|] == x; }
      }
      AppendFromPrefix(next, base, more[1..]);
    } else if more == [] {
      assert base == items;
    }
  }

  /** The suffixes are always the right set, but their order remembers: a list that is extended from an
      earlier one equals the list gathered from scratch exactly when it begins with the earlier one. */
  lemma OrderExactly(own: seq<string>, earlier: seq<string>, lists: seq<seq<string>>)
    requires own <= earlier
    ensures AppendLists(earlier, lists) == AppendLists(own, lists) <==> earlier <= AppendLists(own, lists)
  {
    AppendListsConcat(own, lists);
    AppendListsConcat(earlier, lists);
    AppendNewGrows(earlier, Concat(lists));
    if earlier <= AppendLists(own, lists) { AppendFromPrefix(own, earlier, Concat(lists)); }
  }

  lemma TwoLists(items: seq<string>, a: seq<string>, b: seq<string>)
    ensures AppendLists(items, [a, b]) == AppendNew(AppendNew(items, a), b)
  {
    AppendListsConcat(items, [a, b]);
    assert [a, b][..1] == [a] && [a][..0] == [];
    assert Concat([a]) == [] + a == a && Concat([a, b]) == a + b;
    AppendNewConcat(items, a, b);
  }

  /** A builder without own suffixes over two builders: asked while only the second had a suffix, and
      again when the first has one too, it lists them the other way round than it would from scratch. */
  lemma OrderCanDiffer(c: string, x: string)
    requires c != x
    ensures AppendLists(AppendLists([], [[], [x]]), [[c], [x]]) == [x, c]
    ensures AppendLists([], [[c], [x]]) == [c, x]
  {
    assert AppendNew([], [x]) == [x] && AppendNew([], [c]) == [c] by { assert [x][1..] == [] && [c][1..] == []; }
    assert AppendNew([c], [x]) == [c, x] by { assert [x][1..] == [] && [c] + [x] == [c, x]; }
    assert AppendNew([x], [c]) == [x, c] by { assert [c][1..] == [] && [x] + [c] == [x, c]; }
    assert AppendNew([x, c], [x]) == [x, c] by { assert [x][1..] == []; }
    TwoLists([], [], [x]);
    TwoLists([x], [c], [x]);
    TwoLists([], [c], [x]);
  }

  // ---- The memo, as a value ----

  /** Which list the memo of every builder holds for an environment, and what is in the lists. */
  datatype Snap = Snap(memo: map<Builder, map<Env, StrList>>, items: map<StrList, seq<string>>) {
    ghost predicate Has(older b: Builder, older e: Env) { b in memo && e in memo[b] && memo[b][e] in items }

    /** The contents of every list are known. */
    ghost predicate Total() { forall b, e | b in memo && e in memo[b] :: memo[b][e] in items }

    ghost function List(b: Builder, e: Env): StrList
      requires Has(b, e)
    {
      memo[b][e]
    }

    ghost function At(b: Builder, e: Env): seq<string>
      requires Has(b, e)
    {
      items[memo[b][e]]
    }

    /** A new list. */
    ghost function Added(b: Builder, e: Env, l: StrList, own: seq<string>): Snap
      requires b in memo
    {
      Snap(memo[b := memo[b][e := l]], items[l := own])
    }

    /** One builder forgets its lists. */
    ghost function Reset(b: Builder): Snap { Snap(memo[b := map[]], items) }

    /** New items in a list. */
    ghost function Changed(l: StrList, new_: seq<string>): Snap { Snap(memo, items[l := new_]) }
  }

  function Set(items: seq<string>): (r: set<string>)
    ensures forall s :: s in r <==> s in items
  {
    set s | s in items
  }

  /** What the list of one builder must look like: its own suffixes in front, and behind them only
      suffixes of builders below it. */
  ghost predicate Entry(g: Graph, envs: set<Env>, b: Builder, e: Env, items: seq<string>)
    requires Acyclic(g, envs)
  {
    b in g && e in envs && Own(b, e) <= items && Set(items) <= Reach(g, envs, b, e)
  }

  ghost predicate Coherent(g: Graph, envs: set<Env>, s: Snap)
    requires Acyclic(g, envs)
  {
    && (forall b, e | s.Has(b, e) :: Entry(g, envs, b, e, s.At(b, e)))
    && forall b, e, b', e' | s.Has(b, e) && s.Has(b', e') && s.List(b, e) == s.List(b', e') :: b == b' && e == e'
  }

  /** The list of a builder holds every suffix below it. */
  ghost predicate Full(g: Graph, envs: set<Env>, s: Snap, b: Builder, e: Env)
    requires Acyclic(g, envs)
  {
    b in g && e in envs && s.Has(b, e) && Set(s.At(b, e)) == Reach(g, envs, b, e)
  }

  /** What a call for builder `b` does to the memo: lists stay where they are and only grow, and
      nothing changes for other environments or for builders that rank as high. */
  ghost predicate Evolves(s: Snap, s': Snap, b: Builder, e: Env) {
    && (forall c, d | s.Has(c, d) :: s'.Has(c, d) && s'.List(c, d) == s.List(c, d) && Grown(s.At(c, d), s'.At(c, d)))
    && forall c, d | s'.Has(c, d) && (d != e || (c != b && c.rank >= b.rank)) :: s.Has(c, d) && s'.At(c, d) == s.At(c, d)
  }

  /** A full list can grow no more. */
  lemma FullStays(g: Graph, envs: set<Env>, s: Snap, s': Snap, b: Builder, e: Env)
    requires Acyclic(g, envs) && Full(g, envs, s, b, e) && s'.Has(b, e)
    requires Entry(g, envs, b, e, s'.At(b, e)) && Grown(s.At(b, e), s'.At(b, e))
    ensures s'.At(b, e) == s.At(b, e)
  {
    GrownWithin(s.At(b, e), s'.At(b, e));
  }

  lemma GrownWithin(old_: seq<string>, new_: seq<string>)
    requires Grown(old_, new_) && Set(new_) <= Set(old_)
    ensures new_ == old_
  {
    if |new_| > |old_| {
      var s := ItemBehind(old_, new_);
      assert false;
    }
  }

  lemma ItemBehind(old_: seq<string>, new_: seq<string>) returns (s: string)
    requires Grown(old_, new_) && |new_| > |old_|
    ensures s in Set(new_) && s !in Set(old_)
  {
    s := new_[|old_|];
  }

  lemma EvolvesTrans(s: Snap, s': Snap, s'': Snap, b: Builder, e: Env)
    requires Evolves(s, s', b, e) && Evolves(s', s'', b, e)
    ensures Evolves(s, s'', b, e)
  {
    forall x, d | s.Has(x, d) ensures s''.Has(x, d) && s''.List(x, d) == s.List(x, d) && Grown(s.At(x, d), s''.At(x, d)) {
      GrownTrans(s.At(x, d), s'.At(x, d), s''.At(x, d));
    }
  }

  lemma EvolvesBelow(s: Snap, s': Snap, b: Builder, c: Builder, e: Env)
    requires Evolves(s, s', c, e) && c.rank < b.rank
    ensures Evolves(s, s', b, e) && (s.Has(b, e) ==> s'.Has(b, e) && s'.At(b, e) == s.At(b, e) && s'.List(b, e) == s.List(b, e))
  {}

  /** `s'` is `s` with one entry added or replaced. */
  ghost predicate OnlyEntry(s: Snap, s': Snap, b: Builder, e: Env) {
    && s'.Has(b, e)
    && (forall c, d | s.Has(c, d) :: s'.Has(c, d))
    && (forall c, d | s'.Has(c, d) && (c != b || d != e) ::
          s.Has(c, d) && s'.List(c, d) == s.List(c, d) && s'.At(c, d) == s.At(c, d) && s'.List(c, d) != s'.List(b, e))
  }

  lemma AddedOnly(s: Snap, b: Builder, e: Env, l: StrList, own: seq<string>)
    requires s.Total() && b in s.memo && e !in s.memo[b] && l !in s.items
    ensures var s' := s.Added(b, e, l, own);
            s'.Total() && OnlyEntry(s, s', b, e) && s'.List(b, e) == l && s'.At(b, e) == own && !s.Has(b, e)
  {}

  lemma ChangedOnly(g: Graph, envs: set<Env>, s: Snap, b: Builder, e: Env, new_: seq<string>)
    requires Acyclic(g, envs) && Coherent(g, envs, s) && s.Has(b, e) && s.Total()
    ensures var s' := s.Changed(s.List(b, e), new_);
            s'.Total() && OnlyEntry(s, s', b, e) && s'.List(b, e) == s.List(b, e) && s'.At(b, e) == new_
  {}

  /** Appending suffixes from below to the list of one builder. */
  lemma ListExtended(g: Graph, envs: set<Env>, s: Snap, b: Builder, e: Env, more: seq<string>)
    requires Acyclic(g, envs) && Coherent(g, envs, s) && s.Has(b, e) && s.Total()
    requires b in g && e in envs && Set(more) <= Reach(g, envs, b, e)
    ensures var s' := s.Changed(s.List(b, e), AppendNew(s.At(b, e), more));
            && s'.Total() && Coherent(g, envs, s') && OnlyEntry(s, s', b, e) && Evolves(s, s', b, e)
            && s'.List(b, e) == s.List(b, e)
  {
    var items := AppendNew(s.At(b, e), more);
    AppendNewGrows(s.At(b, e), more);
    ChangedOnly(g, envs, s, b, e, items);
    assert Entry(g, envs, b, e, s.At(b, e));
    OnlyEntryEffect(g, envs, s, s.Changed(s.List(b, e), items), b, e);
  }

  lemma OnlyEntryEffect(g: Graph, envs: set<Env>, s: Snap, s': Snap, b: Builder, e: Env)
    requires Acyclic(g, envs) && Coherent(g, envs, s) && OnlyEntry(s, s', b, e) && Entry(g, envs, b, e, s'.At(b, e))
    requires s.Has(b, e) ==> s'.List(b, e) == s.List(b, e) && Grown(s.At(b, e), s'.At(b, e))
    ensures Coherent(g, envs, s') && Evolves(s, s', b, e)
  {}

  /** The list a call for `b` starts from. */
  ghost function Base(s: Snap, b: Builder, e: Env): seq<string> {
    if s.Has(b, e) then s.At(b, e) else Own(b, e)
  }

  /** Lists that were full stay as they are. */
  lemma FullLists(g: Graph, envs: set<Env>, s: Snap, s': Snap, b: Builder, e: Env)
    requires Acyclic(g, envs) && Coherent(g, envs, s') && Evolves(s, s', b, e)
    ensures forall c, d | s.Has(c, d) && c in g && d in envs && Full(g, envs, s, c, d) ::
              Full(g, envs, s', c, d) && s'.At(c, d) == s.At(c, d)
  {
    forall c, d | s.Has(c, d) && c in g && d in envs && Full(g, envs, s, c, d)
      ensures Full(g, envs, s', c, d) && s'.At(c, d) == s.At(c, d)
    {
      assert s'.Has(c, d);
      FullStays(g, envs, s, s', c, d);
    }
  }

  /** The lists of several builders. */
  ghost function ListsAt(s: Snap, cs: seq<Builder>, e: Env): seq<seq<string>>
    requires forall c | c in cs :: s.Has(c, e)
    ensures |ListsAt(s, cs, e)| == |cs|
  {
    if cs == [] then [] else ListsAt(s, cs[..|cs| - 1], e) + [s.At(cs[|cs| - 1], e)]
  }

  lemma {:induction false} ListsSame(s: Snap, s': Snap, cs: seq<Builder>, e: Env)
    requires forall c | c in cs :: s.Has(c, e) && s'.Has(c, e) && s'.At(c, e) == s.At(c, e)
    ensures ListsAt(s', cs, e) == ListsAt(s, cs, e)
  {
    if cs != [] { ListsSame(s, s', cs[..|cs| - 1], e); }
  }

  /** `items` is `base` with the lists of the builders appended, one after the other. */
  ghost predicate Gathered(s: Snap, cs: seq<Builder>, e: Env, base: seq<string>, items: seq<string>) {
    (forall c | c in cs :: s.Has(c, e)) && items == AppendLists(base, ListsAt(s, cs, e))
  }

  ghost predicate AllFull(g: Graph, envs: set<Env>, s: Snap, cs: seq<Builder>, e: Env)
    requires Acyclic(g, envs)
  {
    forall c | c in cs :: Full(g, envs, s, c, e)
  }

  lemma {:induction false} GatheredHas(s: Snap, cs: seq<Builder>, e: Env, base: seq<string>, items: seq<string>, c: Builder)
    requires Gathered(s, cs, e, base, items) && c in cs
    ensures Set(s.At(c, e)) <= Set(items)
  {
    var n := |cs| - 1;
    var lists := ListsAt(s, cs, e);
    assert lists[..n] == ListsAt(s, cs[..n], e);
    var before := AppendLists(base, lists[..n]);
    AppendNewGrows(before, s.At(cs[n], e));
    if c != cs[n] {
      assert cs == cs[..n] + [cs[n]];
      GatheredHas(s, cs[..n], e, base, before, c);
    }
  }

  /** A list to which the full lists of all source builders were appended is full. */
  lemma FullFrom(g: Graph, envs: set<Env>, s: Snap, b: Builder, e: Env, base: seq<string>)
    requires Acyclic(g, envs) && s.Has(b, e) && Entry(g, envs, b, e, s.At(b, e))
    requires AllFull(g, envs, s, Resolve(g[b], e), e) && Gathered(s, Resolve(g[b], e), e, base, s.At(b, e))
    ensures Full(g, envs, s, b, e)
  {
    var items := s.At(b, e);
    forall x | x in Reach(g, envs, b, e) ensures x in Set(items) {
      if x in Own(b, e) {
        var i :| 0 <= i < |Own(b, e)| && Own(b, e)[i] == x;
        assert items[i] == x;
      } else {
        var c :| c in Resolve(g[b], e) && x in Reach(g, envs, c, e);
        assert Full(g, envs, s, c, e);
        GatheredHas(s, Resolve(g[b], e), e, base, items, c);
      }
    }
  }

  lemma GatheredMore(g: Graph, envs: set<Env>, s: Snap, s': Snap, b: Builder, e: Env, cs: seq<Builder>, i: nat,
                     base: seq<string>, items: seq<string>)
    requires Acyclic(g, envs) && Coherent(g, envs, s') && Evolves(s, s', b, e) && i < |cs|
    requires AllFull(g, envs, s, cs[..i], e) && Gathered(s, cs[..i], e, base, items) && Full(g, envs, s', cs[i], e)
    ensures AllFull(g, envs, s', cs[..i + 1], e)
    ensures Gathered(s', cs[..i + 1], e, base, AppendNew(items, s'.At(cs[i], e)))
  {
    FullLists(g, envs, s, s', b, e);
    ListsSame(s, s', cs[..i], e);
    assert cs[..i + 1] == cs[..i] + [cs[i]];
    var lists := ListsAt(s', cs[..i + 1], e);
    assert cs[..i + 1][..i] == cs[..i];
    assert lists[..i] == ListsAt(s', cs[..i], e);
  }

  class Builder {
    const srcSuffix: seq<string>
    ghost const rank: nat
    var srcBuilder: seq<Source>
    var builderMemo: map<Env, seq<Builder>>
    var suffixMemo: map<Env, StrList>

    constructor (srcSuffix: seq<string>, ghost rank: nat)
      ensures this.srcSuffix == srcSuffix && this.rank == rank
      ensures srcBuilder == [] && builderMemo == map[] && suffixMemo == map[]
    {
      this.srcSuffix, this.rank := srcSuffix, rank;
      srcBuilder, builderMemo, suffixMemo := [], map[], map[];
    }
  
    /** `get_src_builders`. */
    method GetSrcBuilders(e: Env) returns (builders: seq<Builder>)
      requires e in builderMemo ==> builderMemo[e] == Resolve(srcBuilder, e)
      modifies this`builderMemo
      ensures builders == Resolve(srcBuilder, e)
      ensures InOrder(srcBuilder, e, builders)
      ensures builderMemo == old(builderMemo)[e := builders]
    {
      ResolveExactly(srcBuilder, e, Resolve(srcBuilder, e));
      if e in builderMemo {
        return builderMemo[e];
      }
      builders := [];
      var i := 0;
      assert srcBuilder[0..] == srcBuilder;
      while i < |srcBuilder|
        invariant 0 <= i <= |srcBuilder|
        invariant builders + Resolve(srcBuilder[i..], e) == Resolve(srcBuilder, e)
      {
        assert srcBuilder[i..][1..] == srcBuilder[i + 1..];
        match srcBuilder[i] {
          case Direct(b) => builders := builders + [b];
          case Named(name) => if name in e.builders { builders := builders + [e.builders[name]]; }
        }
        i := i + 1;
      }
      builderMemo := builderMemo[e := builders];
    }

    /** `get_src_builders`, in a world. */
    method SourceBuilders(ghost w: World, e: Env) returns (builders: seq<Builder>)
      requires Valid(w) && this in w.builders && e in w.envs
      modifies this`builderMemo
      ensures builders == Resolve(srcBuilder, e)
      ensures Valid(w) && GraphOf(w) == old(GraphOf(w)) && SnapOf(w) == old(SnapOf(w))
    {
      builders := GetSrcBuilders(e);
      assert GraphOf(w) == old(GraphOf(w)) && SnapOf(w) == old(SnapOf(w));
      assert Memoised(w);
    }

    /** Stores a new list in the memo. */
    method NewList(ghost w: World, e: Env, items: seq<string>) returns (l: StrList)
      requires this in w.builders && e !in suffixMemo
      modifies w, this`suffixMemo
      ensures fresh(l) && w.lists == old(w.lists) + {l}
      ensures SnapOf(w) == old(SnapOf(w)).Added(this, e, l, items)
    {
      ghost var s := SnapOf(w);
      l := new StrList(items);
      suffixMemo := suffixMemo[e := l];
      w.lists := w.lists + {l};
      ghost var s' := SnapOf(w);
      assert s'.memo == s.memo[this := s.memo[this][e := l]];
      ItemsAdded(s.items, s'.items, l, items);
    }

    /** `subst_src_suffixes`: the memoised list, or a new one with the builder's own suffixes. */
    method SubstSrcSuffixes(ghost w: World, e: Env) returns (suffixes: StrList)
      requires Valid(w) && this in w.builders && e in w.envs
      modifies w, this`suffixMemo
      ensures Valid(w) && GraphOf(w) == old(GraphOf(w))
      ensures suffixes in w.lists && forall l | l in w.lists :: l in old(w.lists) || fresh(l)
      ensures e in old(suffixMemo) ==> SnapOf(w) == old(SnapOf(w))
      ensures e !in old(suffixMemo) ==> SnapOf(w) == old(SnapOf(w)).Added(this, e, suffixes, Own(this, e))
      ensures SnapOf(w).Has(this, e) && SnapOf(w).List(this, e) == suffixes
      ensures Evolves(old(SnapOf(w)), SnapOf(w), this, e)
    {
      if e in suffixMemo {
        suffixes := suffixMemo[e];
      } else {
        ghost var s := SnapOf(w);
        ghost var g := GraphOf(w);
        var items := seq(|srcSuffix|, i requires 0 <= i < |srcSuffix| => e.subst(srcSuffix[i]));
        assert items == Own(this, e);
        suffixes := NewList(w, e, items);
        assert GraphOf(w) == g;
        AddedOnly(s, this, e, suffixes, items);
        OnlyEntryEffect(g, w.envs, s, SnapOf(w), this, e);
      }
    }

    /** The loop over the suffixes of one source builder. */
    static method AppendLoop(suffixes: StrList, more: StrList, sdict: set<string>) returns (sdict': set<string>)
      requires suffixes != more && sdict == Set(suffixes.items)
      modifies suffixes
      ensures suffixes.items == AppendNew(old(suffixes.items), more.items) && sdict' == Set(suffixes.items)
    {
      sdict' := sdict;
      var i := 0;
      assert more.items[0..] == more.items;
      while i < |more.items|
        invariant 0 <= i <= |more.items| && sdict' == Set(suffixes.items)
        invariant AppendNew(suffixes.items, more.items[i..]) == AppendNew(old(suffixes.items), more.items)
      {
        var s := more.items[i];
        assert more.items[i..][1..] == more.items[i + 1..];
        if s !in sdict' {
          sdict' := sdict' + {s};
          suffixes.items := suffixes.items + [s];
        }
        i := i + 1;
      }
    }

    /** Appends to the builder's own list what another list has and it has not. */
    method Extend(ghost w: World, e: Env, suffixes: StrList, more: StrList, sdict: set<string>) returns (sdict': set<string>)
      requires Valid(w) && this in w.builders && e in w.envs && Holds(w, this, e, suffixes) && more in w.lists && suffixes != more
      requires sdict == Set(suffixes.items) && Set(more.items) <= Reach(GraphOf(w), w.envs, this, e)
      modifies suffixes
      ensures Valid(w) && GraphOf(w) == old(GraphOf(w))
      ensures suffixes.items == AppendNew(old(suffixes.items), more.items) && sdict' == Set(suffixes.items)
      ensures OnlyEntry(old(SnapOf(w)), SnapOf(w), this, e) && Evolves(old(SnapOf(w)), SnapOf(w), this, e)
      ensures Holds(w, this, e, suffixes)
    {
      ghost var s := SnapOf(w);
      ghost var g := GraphOf(w);
      sdict' := AppendLoop(suffixes, more, sdict);
      ItemsAdded(s.items, SnapOf(w).items, suffixes, suffixes.items);
      assert SnapOf(w) == s.Changed(suffixes, suffixes.items);
      ListExtended(g, w.envs, s, this, e, more.items);
    }

    /** One source builder: its list is computed and its suffixes are appended. */
    method VisitSource(ghost w: World, e: Env, suffixes: StrList, c: Builder, sdict: set<string>) returns (sdict': set<string>)
      requires Valid(w) && this in w.builders && e in w.envs && Holds(w, this, e, suffixes) && sdict == Set(suffixes.items)
      requires c in Resolve(srcBuilder, e)
      modifies w, w.builders, w.lists
      ensures Valid(w) && GraphOf(w) == old(GraphOf(w)) && forall l | l in w.lists :: l in old(w.lists) || fresh(l)
      ensures Holds(w, this, e, suffixes) && sdict' == Set(suffixes.items)
      ensures Full(GraphOf(w), w.envs, SnapOf(w), c, e)
      ensures suffixes.items == AppendNew(old(suffixes.items), SnapOf(w).At(c, e))
      ensures Evolves(old(SnapOf(w)), SnapOf(w), this, e)
      decreases rank, 0
    {
      ghost var g, s := GraphOf(w), SnapOf(w);
      assert c in Resolve(g[this], e);
      var more := c.SrcSuffixes(w, e);
      ghost var s1 := SnapOf(w);
      assert GraphOf(w) == g;
      EvolvesBelow(s, s1, this, c, e);
      sdict' := Extend(w, e, suffixes, more, sdict);
      EvolvesTrans(s, s1, SnapOf(w), this, e);
    }

    /** `src_suffixes`. */
    method SrcSuffixes(ghost w: World, e: Env) returns (suffixes: StrList)
      requires Valid(w) && this in w.builders && e in w.envs
      modifies w, w.builders, w.lists
      ensures Valid(w) && GraphOf(w) == old(GraphOf(w)) && forall l | l in w.lists :: l in old(w.lists) || fresh(l)
      ensures Holds(w, this, e, suffixes)
      ensures Full(GraphOf(w), w.envs, SnapOf(w), this, e)
      ensures Evolves(old(SnapOf(w)), SnapOf(w), this, e)
      ensures Gathered(SnapOf(w), Resolve(srcBuilder, e), e, Base(old(SnapOf(w)), this, e), suffixes.items)
      decreases rank, 1
    {
      ghost var g, s := GraphOf(w), SnapOf(w);
      suffixes := SubstSrcSuffixes(w, e);
      ghost var base := suffixes.items;
      assert base == Base(s, this, e);
      var sdict := Set(suffixes.items);
      var builders := SourceBuilders(w, e);
      var i := 0;
      while i < |builders|
        invariant 0 <= i <= |builders| && builders == Resolve(srcBuilder, e)
        invariant Valid(w) && GraphOf(w) == g && forall l | l in w.lists :: l in old(w.lists) || fresh(l)
        invariant Holds(w, this, e, suffixes)
        invariant sdict == Set(suffixes.items) && Evolves(s, SnapOf(w), this, e)
        invariant AllFull(g, w.envs, SnapOf(w), builders[..i], e)
        invariant Gathered(SnapOf(w), builders[..i], e, base, suffixes.items)
      {
        ghost var s1, items := SnapOf(w), suffixes.items;
        sdict := VisitSource(w, e, suffixes, builders[i], sdict);
        EvolvesTrans(s, s1, SnapOf(w), this, e);
        GatheredMore(g, w.envs, s1, SnapOf(w), this, e, builders, i, base, items);
        i := i + 1;
      }
      assert builders[..i] == builders;
      FullFrom(g, w.envs, SnapOf(w), this, e, base);
    }

    /** `get_src_suffix`: the first own suffix; without own suffixes, one from below, if there is any. */
    method GetSrcSuffix(ghost w: World, e: Env) returns (suffix: string)
      requires Valid(w) && this in w.builders && e in w.envs
      modifies w, w.builders, w.lists
      ensures Valid(w) && GraphOf(w) == old(GraphOf(w))
      ensures Own(this, e) != [] ==> suffix == Own(this, e)[0]
      ensures Own(this, e) == [] && Reach(GraphOf(w), w.envs, this, e) != {} ==> suffix in Reach(GraphOf(w), w.envs, this, e)
      ensures Reach(GraphOf(w), w.envs, this, e) == {} ==> suffix == ""
    {
      var ret := SrcSuffixes(w, e);
      assert Entry(GraphOf(w), w.envs, this, e, SnapOf(w).At(this, e));
      if ret.items == [] {
        assert Set(ret.items) == {};
        return "";
      }
      assert ret.items[0] in Set(ret.items);
      return ret.items[0];
    }

    /** `add_src_builder`. */
    method AddSrcBuilder(ghost w: World, x: Source)
      requires Valid(w) && this in w.builders && MayAdd(GraphOf(w), w.envs, this, x)
      modifies this
      ensures Valid(w) && GraphOf(w) == old(GraphOf(w))[this := old(srcBuilder) + [x]]
      ensures SnapOf(w) == old(SnapOf(w)).Reset(this)
    {
      ghost var g, s := GraphOf(w), SnapOf(w);
      Forget(w);
      SetSources(w, srcBuilder + [x]);
      assert GraphOf(w) == g[this := g[this] + [x]] && SnapOf(w) == s.Reset(this);
      AddedSource(g, w.envs, this, x);
      ResetCoherent(g, w.envs, s, this, x);
    }

    /** Drops both memos of this builder. */
    method Forget(ghost w: World)
      requires this in w.builders && Memoised(w)
      modifies this`suffixMemo, this`builderMemo
      ensures builderMemo == map[] && Memoised(w)
      ensures SnapOf(w) == old(SnapOf(w)).Reset(this)
    {
      ghost var s := SnapOf(w);
      suffixMemo, builderMemo := map[], map[];
      assert SnapOf(w).memo == s.memo[this := map[]];
    }

    /** Changes the source builders of a builder that remembers none. */
    method SetSources(ghost w: World, sources: seq<Source>)
      requires this in w.builders && builderMemo == map[] && Memoised(w)
      modifies this`srcBuilder
      ensures Memoised(w) && GraphOf(w) == old(GraphOf(w))[this := sources]
    {
      ghost var g := GraphOf(w);
      srcBuilder := sources;
      assert GraphOf(w) == g[this := sources];
    }

    /** `_get_sdict`: for every suffix below a source builder, the last source builder that has it. */
    method GetSdict(ghost w: World, e: Env) returns (sdict: map<string, Builder>)
      requires Valid(w) && this in w.builders && e in w.envs
      modifies w, w.builders, w.lists
      ensures Valid(w) && GraphOf(w) == old(GraphOf(w))
      ensures LastWins(GraphOf(w), w.envs, Resolve(srcBuilder, e), e, sdict)
    {
      ghost var g := GraphOf(w);
      var builders := SourceBuilders(w, e);
      sdict := map[];
      var i := 0;
      while i < |builders|
        invariant 0 <= i <= |builders| && builders == Resolve(srcBuilder, e)
        invariant Valid(w) && GraphOf(w) == g && forall l | l in w.lists :: l in old(w.lists) || fresh(l)
        invariant LastWins(g, w.envs, builders[..i], e, sdict)
      {
        var bld := builders[i];
        assert this in g && g[this] == srcBuilder && bld in Resolve(g[this], e);
        assert bld in g;
        var list := bld.SrcSuffixes(w, e);
        LastWinsMore(g, w.envs, builders, i, e, sdict, Set(list.items));
        sdict := Fill(sdict, Set(list.items), bld);
        i := i + 1;
      }
      assert builders[..i] == builders;
    }
  }

  /** The last of the builders that has the suffix below it. */
  ghost function LastWith(g: Graph, envs: set<Env>, cs: seq<Builder>, e: Env, s: string): Option<Builder>
    requires Acyclic(g, envs) && e in envs && forall c | c in cs :: c in g
  {
    if cs == [] then None
    else
      var last := cs[|cs| - 1];
      if s in Reach(g, envs, last, e) then Some(last) else LastWith(g, envs, cs[..|cs| - 1], e, s)
  }

  ghost predicate LastWins(g: Graph, envs: set<Env>, cs: seq<Builder>, e: Env, sdict: map<string, Builder>) {
    && Acyclic(g, envs) && e in envs && (forall c | c in cs :: c in g)
    && forall s :: LastWith(g, envs, cs, e, s) == if s in sdict then Some(sdict[s]) else None
  }

  /** The dictionary has exactly the suffixes below some of the builders, and of those builders each suffix
      belongs to the last. */
  lemma {:induction false} LastWinsExactly(g: Graph, envs: set<Env>, cs: seq<Builder>, e: Env, sdict: map<string, Builder>, s: string)
    requires LastWins(g, envs, cs, e, sdict)
    ensures s in sdict <==> exists c :: c in cs && s in Reach(g, envs, c, e)
    ensures s in sdict ==> exists i :: LastAt(g, envs, cs, e, s, i) && sdict[s] == cs[i]
  {
    LastIndex(g, envs, cs, e, s);
  }

  ghost predicate LastAt(g: Graph, envs: set<Env>, cs: seq<Builder>, e: Env, s: string, i: int)
    requires Acyclic(g, envs) && e in envs && forall c | c in cs :: c in g
  {
    0 <= i < |cs| && s in Reach(g, envs, cs[i], e) && forall j | i < j < |cs| :: s !in Reach(g, envs, cs[j], e)
  }

  lemma {:induction false} LastIndex(g: Graph, envs: set<Env>, cs: seq<Builder>, e: Env, s: string)
    requires Acyclic(g, envs) && e in envs && forall c | c in cs :: c in g
    ensures LastWith(g, envs, cs, e, s).Some? <==> exists c :: c in cs && s in Reach(g, envs, c, e)
    ensures LastWith(g, envs, cs, e, s).Some? ==>
              exists i :: LastAt(g, envs, cs, e, s, i) && LastWith(g, envs, cs, e, s) == Some(cs[i])
  {
    if cs != [] {
      var n := |cs| - 1;
      assert cs == cs[..n] + [cs[n]];
      if s in Reach(g, envs, cs[n], e) {
        assert LastAt(g, envs, cs, e, s, n) && cs[n] in cs;
      } else {
        LastIndex(g, envs, cs[..n], e, s);
        if LastWith(g, envs, cs, e, s).Some? {
          var i :| LastAt(g, envs, cs[..n], e, s, i) && LastWith(g, envs, cs[..n], e, s) == Some(cs[..n][i]);
          assert LastAt(g, envs, cs, e, s, i);
        }
      }
    }
  }

  /** The loop that enters the suffixes of one builder. */
  function Fill(sdict: map<string, Builder>, suffixes: set<string>, b: Builder): map<string, Builder> {
    sdict + map s | s in suffixes :: b
  }

  lemma LastWinsMore(g: Graph, envs: set<Env>, cs: seq<Builder>, i: nat, e: Env, sdict: map<string, Builder>,
                     suffixes: set<string>)
    requires i < |cs| && LastWins(g, envs, cs[..i], e, sdict) && cs[i] in g && suffixes == Reach(g, envs, cs[i], e)
    ensures LastWins(g, envs, cs[..i + 1], e, Fill(sdict, suffixes, cs[i]))
  {
    assert cs[..i + 1][..i] == cs[..i];
  }

  lemma {:induction false} ResolveSnoc(sources: seq<Source>, x: Source, e: Env)
    ensures Resolve(sources + [x], e) == Resolve(sources, e) + Resolve([x], e)
  {
    if sources == [] {
      assert [] + [x] == [x];
    } else {
      assert (sources + [x])[1..] == sources[1..] + [x];
      ResolveSnoc(sources[1..], x, e);
    }
  }

  /** The new source ranks below the builder, in every environment. */
  ghost predicate MayAdd(g: Graph, envs: set<Env>, b: Builder, x: Source) {
    forall e, c | e in envs && c in Resolve([x], e) :: c in g && c.rank < b.rank
  }

  lemma AddedSource(g: Graph, envs: set<Env>, b: Builder, x: Source)
    requires Acyclic(g, envs) && b in g && MayAdd(g, envs, b, x)
    ensures Acyclic(g[b := g[b] + [x]], envs)
  {
    forall e | e in envs ensures Resolve(g[b] + [x], e) == Resolve(g[b], e) + Resolve([x], e) { ResolveSnoc(g[b], x, e); }
  }

  /** A new source builder takes nothing away. */
  lemma {:induction false} ReachGrows(g: Graph, envs: set<Env>, b: Builder, x: Source, c: Builder, e: Env)
    requires Acyclic(g, envs) && b in g && Acyclic(g[b := g[b] + [x]], envs) && c in g && e in envs
    ensures Reach(g, envs, c, e) <= Reach(g[b := g[b] + [x]], envs, c, e)
    decreases c.rank
  {
    var g' := g[b := g[b] + [x]];
    ResolveSnoc(g[b], x, e);
    forall s | s in Reach(g, envs, c, e) ensures s in Reach(g', envs, c, e) {
      if s !in Own(c, e) {
        var d :| d in Resolve(g[c], e) && s in Reach(g, envs, d, e);
        ReachGrows(g, envs, b, x, d, e);
        assert d in Resolve(g'[c], e);
      }
    }
  }

  lemma ResetCoherent(g: Graph, envs: set<Env>, s: Snap, b: Builder, x: Source)
    requires Acyclic(g, envs) && Coherent(g, envs, s) && s.Total() && b in g && Acyclic(g[b := g[b] + [x]], envs)
    ensures s.Reset(b).Total() && Coherent(g[b := g[b] + [x]], envs, s.Reset(b))
  {
    var g', s' := g[b := g[b] + [x]], s.Reset(b);
    forall c, e | s'.Has(c, e) ensures s.Has(c, e) && s'.At(c, e) == s.At(c, e) && s'.List(c, e) == s.List(c, e) {
      assert c != b;
    }
    forall c, e | s'.Has(c, e) ensures Entry(g', envs, c, e, s'.At(c, e)) {
      assert Entry(g, envs, c, e, s.At(c, e));
      ReachGrows(g, envs, b, x, c, e);
    }
  }

  /** Everything there is: the builders, the environments and the lists. */
  class World {
    ghost const builders: set<Builder>
    ghost const envs: set<Env>
    ghost var lists: set<StrList>

    ghost constructor (builders: set<Builder>, envs: set<Env>)
      ensures this.builders == builders && this.envs == envs && lists == {}
    {
      this.builders, this.envs, lists := builders, envs, {};
    }
  }

  ghost function GraphOf(w: World): Graph
    reads w.builders`srcBuilder
  {
    map b | b in w.builders :: b.srcBuilder
  }

  ghost function SnapOf(w: World): Snap
    reads w, w.builders`suffixMemo, w.lists
  {
    Snap(map b | b in w.builders :: b.suffixMemo, map l | l in w.lists :: l.items)
  }

  /** The memo of `b` holds the list `l` for `e`. */
  ghost predicate Holds(w: World, b: Builder, e: Env, l: StrList)
    reads w, w.builders`suffixMemo, w.lists
  {
    l in w.lists && SnapOf(w).Has(b, e) && SnapOf(w).List(b, e) == l
  }

  /** The memo of source builders is up to date. */
  ghost predicate Memoised(w: World)
    reads w.builders`srcBuilder, w.builders`builderMemo
  {
    forall b, e | b in w.builders && e in b.builderMemo :: e in w.envs && b.builderMemo[e] == Resolve(b.srcBuilder, e)
  }

  ghost predicate Valid(w: World)
    reads w, w.builders, w.lists
  {
    && Acyclic(GraphOf(w), w.envs) && Memoised(w)
    && SnapOf(w).Total() && Coherent(GraphOf(w), w.envs, SnapOf(w))
  }

  lemma ItemsAdded(m: map<StrList, seq<string>>, m': map<StrList, seq<string>>, l: StrList, new_: seq<string>)
    requires m'.Keys == m.Keys + {l} && l in m' && m'[l] == new_ && forall x | x in m && x != l :: m'[x] == m[x]
    ensures m' == m[l := new_]
  {}

  // ---- Any run ----

  /** What the rest of the program does with the graph. */
  datatype Op = Ask(b: Builder, e: Env) | AddSource(b: Builder, x: Source)

  function GraphAfter(g: Graph, ops: seq<Op>): Graph {
    if ops == [] then g
    else
      var before := GraphAfter(g, ops[..|ops| - 1]);
      match ops[|ops| - 1]
      case Ask(_, _) => before
      case AddSource(b, x) => if b in before then before[b := before[b] + [x]] else before
  }

  /** The builders and environments are known, and no step closes a cycle. */
  ghost predicate Legal(g: Graph, envs: set<Env>, op: Op) {
    match op
    case Ask(b, e) => b in g && e in envs
    case AddSource(b, x) => b in g && MayAdd(g, envs, b, x)
  }

  ghost predicate AllLegal(g: Graph, envs: set<Env>, ops: seq<Op>) {
    forall i | 0 <= i < |ops| :: Legal(GraphAfter(g, ops[..i]), envs, ops[i])
  }

  /** An answer names exactly the suffixes below the builder, its own in front. */
  ghost predicate Correct(g: Graph, envs: set<Env>, b: Builder, e: Env, answer: seq<string>) {
    && Acyclic(g, envs) && b in g && e in envs
    && Own(b, e) <= answer && Set(answer) == Reach(g, envs, b, e)
  }

  predicate NoAdds(ops: seq<Op>) { forall op | op in ops :: op.Ask? }

  ghost predicate Answered(g0: Graph, envs: set<Env>, ops: seq<Op>, answers: seq<seq<string>>) {
    && |answers| == |ops|
    && forall i | 0 <= i < |ops| && ops[i].Ask? :: Correct(GraphAfter(g0, ops[..i]), envs, ops[i].b, ops[i].e, answers[i])
  }

  /** What was asked since the last addition is still in the memo. */
  ghost predicate Remembered(g: Graph, envs: set<Env>, s: Snap, ops: seq<Op>, answers: seq<seq<string>>)
    requires Acyclic(g, envs)
  {
    && |answers| == |ops|
    && forall i | 0 <= i < |ops| && ops[i].Ask? && NoAdds(ops[i..]) ::
         Full(g, envs, s, ops[i].b, ops[i].e) && s.At(ops[i].b, ops[i].e) == answers[i]
  }

  /** The same question with no addition in between has the same answer. */
  ghost predicate Repeats(ops: seq<Op>, answers: seq<seq<string>>) {
    && |answers| == |ops|
    && forall i, j | 0 <= i < j < |ops| && ops[i].Ask? && ops[j] == ops[i] && NoAdds(ops[i..j]) :: answers[j] == answers[i]
  }

  /** After some of the operations: every answer was right, and what is in the memo still answers what
      was asked since the last addition. */
  ghost predicate Progress(w: World, g0: Graph, ops: seq<Op>, answers: seq<seq<string>>)
    reads w, w.builders, w.lists
  {
    && Valid(w) && GraphOf(w) == GraphAfter(g0, ops) && Answered(g0, w.envs, ops, answers)
    && Remembered(GraphOf(w), w.envs, SnapOf(w), ops, answers) && Repeats(ops, answers)
  }

  method Perform(ghost w: World, op: Op, ghost g0: Graph, ghost ops: seq<Op>, ghost answers: seq<seq<string>>)
    returns (answer: seq<string>)
    requires Progress(w, g0, ops, answers) && Legal(GraphOf(w), w.envs, op)
    modifies w, w.builders, w.lists
    ensures Progress(w, g0, ops + [op], answers + [answer])
    ensures forall l | l in w.lists :: l in old(w.lists) || fresh(l)
  {
    ghost var g, s := GraphOf(w), SnapOf(w);
    match op {
      case Ask(b, e) =>
        var list := b.SrcSuffixes(w, e);
        answer := list.items;
        AskCorrect(g, w.envs, SnapOf(w), b, e);
        AskStep(g0, g, w.envs, s, SnapOf(w), b, e, ops, answers);
      case AddSource(b, x) =>
        b.AddSrcBuilder(w, x);
        answer := [];
        AddStep(g0, g, GraphOf(w), w.envs, SnapOf(w), b, x, ops, answers);
    }
  }

  lemma Snoc(ops: seq<Op>, n: nat)
    requires n < |ops|
    ensures ops[..n + 1] == ops[..n] + [ops[n]]
  {}

  lemma Nothing(w: World)
    requires Valid(w)
    ensures Progress(w, GraphOf(w), [], [])
  {}

  /** Whatever is asked and added, in whatever order, every answer is correct for the graph at its
      time, and asking again without an addition in between gives the same list. */
  method Session(ghost w: World, ops: seq<Op>) returns (answers: seq<seq<string>>)
    requires Valid(w)
    requires AllLegal(GraphOf(w), w.envs, ops)
    modifies w, w.builders, w.lists
    ensures Progress(w, old(GraphOf(w)), ops, answers)
  {
    ghost var g0 := GraphOf(w);
    answers := [];
    var n := 0;
    assert ops[..0] == [];
    Nothing(w);
    while n < |ops|
      invariant 0 <= n <= |ops| && Progress(w, g0, ops[..n], answers)
      invariant forall l | l in w.lists :: l in old(w.lists) || fresh(l)
    {
      Snoc(ops, n);
      var answer := Perform(w, ops[n], g0, ops[..n], answers);
      answers := answers + [answer];
      n := n + 1;
    }
    assert ops[..n] == ops;
  }

  lemma AskCorrect(g: Graph, envs: set<Env>, s: Snap, b: Builder, e: Env)
    requires Acyclic(g, envs) && Coherent(g, envs, s) && Full(g, envs, s, b, e)
    ensures Correct(g, envs, b, e, s.At(b, e))
  {
    assert Entry(g, envs, b, e, s.At(b, e));
  }

  lemma AskAnswered(g0: Graph, envs: set<Env>, b: Builder, e: Env, ops: seq<Op>, answers: seq<seq<string>>, answer: seq<string>)
    requires Answered(g0, envs, ops, answers) && Correct(GraphAfter(g0, ops), envs, b, e, answer)
    ensures GraphAfter(g0, ops + [Ask(b, e)]) == GraphAfter(g0, ops)
    ensures Answered(g0, envs, ops + [Ask(b, e)], answers + [answer])
  {
    var ops', answers' := ops + [Ask(b, e)], answers + [answer];
    assert ops'[..|ops|] == ops;
    forall i | 0 <= i < |ops'| && ops'[i].Ask?
      ensures Correct(GraphAfter(g0, ops'[..i]), envs, ops'[i].b, ops'[i].e, answers'[i])
    {
      if i < |ops| { assert ops'[..i] == ops[..i] && ops'[i] == ops[i]; }
    }
  }

  lemma AskRemembered(g: Graph, envs: set<Env>, s: Snap, s': Snap, b: Builder, e: Env, ops: seq<Op>, answers: seq<seq<string>>)
    requires Acyclic(g, envs) && Remembered(g, envs, s, ops, answers)
    requires Evolves(s, s', b, e) && Coherent(g, envs, s') && Full(g, envs, s', b, e)
    ensures Remembered(g, envs, s', ops + [Ask(b, e)], answers + [s'.At(b, e)])
  {
    var ops', answers' := ops + [Ask(b, e)], answers + [s'.At(b, e)];
    FullLists(g, envs, s, s', b, e);
    forall i | 0 <= i < |ops'| && ops'[i].Ask? && NoAdds(ops'[i..])
      ensures Full(g, envs, s', ops'[i].b, ops'[i].e) && s'.At(ops'[i].b, ops'[i].e) == answers'[i]
    {
      if i < |ops| {
        assert ops'[i..] == ops[i..] + [Ask(b, e)];
        assert NoAdds(ops[i..]);
        assert Full(g, envs, s, ops[i].b, ops[i].e);
      }
    }
  }

  lemma AskRepeats(g: Graph, envs: set<Env>, s: Snap, s': Snap, b: Builder, e: Env, ops: seq<Op>, answers: seq<seq<string>>)
    requires Acyclic(g, envs) && Remembered(g, envs, s, ops, answers) && Repeats(ops, answers)
    requires Evolves(s, s', b, e) && Coherent(g, envs, s') && Full(g, envs, s', b, e)
    ensures Repeats(ops + [Ask(b, e)], answers + [s'.At(b, e)])
  {
    var ops', answers' := ops + [Ask(b, e)], answers + [s'.At(b, e)];
    forall i, j | 0 <= i < j < |ops'| && ops'[i].Ask? && ops'[j] == ops'[i] && NoAdds(ops'[i..j])
      ensures answers'[j] == answers'[i]
    {
      assert ops'[i..j] == ops[i..j];
      if j == |ops| {
        assert ops[i..j] == ops[i..];
        assert Full(g, envs, s, b, e);
        FullLists(g, envs, s, s', b, e);
      }
    }
  }

  lemma AskStep(g0: Graph, g: Graph, envs: set<Env>, s: Snap, s': Snap, b: Builder, e: Env,
                ops: seq<Op>, answers: seq<seq<string>>)
    requires Acyclic(g, envs) && g == GraphAfter(g0, ops) && Answered(g0, envs, ops, answers)
    requires Remembered(g, envs, s, ops, answers) && Repeats(ops, answers)
    requires Evolves(s, s', b, e) && Coherent(g, envs, s') && Full(g, envs, s', b, e) && Correct(g, envs, b, e, s'.At(b, e))
    ensures var ops', answers' := ops + [Ask(b, e)], answers + [s'.At(b, e)];
            && GraphAfter(g0, ops') == g && Answered(g0, envs, ops', answers')
            && Remembered(g, envs, s', ops', answers') && Repeats(ops', answers')
  {
    AskAnswered(g0, envs, b, e, ops, answers, s'.At(b, e));
    AskRemembered(g, envs, s, s', b, e, ops, answers);
    AskRepeats(g, envs, s, s', b, e, ops, answers);
  }

  lemma AddAnswered(g0: Graph, envs: set<Env>, op: Op, ops: seq<Op>, answers: seq<seq<string>>)
    requires Answered(g0, envs, ops, answers) && op.AddSource?
    ensures Answered(g0, envs, ops + [op], answers + [[]])
  {
    var ops', answers' := ops + [op], answers + [[]];
    forall i | 0 <= i < |ops'| && ops'[i].Ask?
      ensures Correct(GraphAfter(g0, ops'[..i]), envs, ops'[i].b, ops'[i].e, answers'[i])
    {
      assert ops'[..i] == ops[..i] && ops'[i] == ops[i];
    }
  }

  /** After an addition nothing is known to be in the memo. */
  lemma AddRemembered(g: Graph, envs: set<Env>, s: Snap, op: Op, ops: seq<Op>, answers: seq<seq<string>>)
    requires Acyclic(g, envs) && |answers| == |ops| && op.AddSource?
    ensures Remembered(g, envs, s, ops + [op], answers + [[]])
  {
    var ops' := ops + [op];
    forall i | 0 <= i < |ops'| ensures !NoAdds(ops'[i..]) {
      assert ops'[i..][|ops| - i] == op;
      assert op in ops'[i..] && !op.Ask?;
    }
  }

  lemma AddRepeats(op: Op, ops: seq<Op>, answers: seq<seq<string>>)
    requires Repeats(ops, answers) && op.AddSource?
    ensures Repeats(ops + [op], answers + [[]])
  {
    var ops', answers' := ops + [op], answers + [[]];
    forall i, j | 0 <= i < j < |ops'| && ops'[i].Ask? && ops'[j] == ops'[i] && NoAdds(ops'[i..j])
      ensures answers'[j] == answers'[i]
    {
      assert ops'[i..j] == ops[i..j];
    }
  }

  lemma AddStep(g0: Graph, g: Graph, g': Graph, envs: set<Env>, s': Snap, b: Builder, x: Source,
                ops: seq<Op>, answers: seq<seq<string>>)
    requires g == GraphAfter(g0, ops) && Answered(g0, envs, ops, answers) && Repeats(ops, answers)
    requires Acyclic(g', envs) && b in g && g' == g[b := g[b] + [x]]
    ensures var ops', answers' := ops + [AddSource(b, x)], answers + [[]];
            && GraphAfter(g0, ops') == g' && Answered(g0, envs, ops', answers')
            && Remembered(g', envs, s', ops', answers') && Repeats(ops', answers')
  {
    var op := AddSource(b, x);
    assert (ops + [op])[..|ops|] == ops;
    AddAnswered(g0, envs, op, ops, answers);
    AddRemembered(g', envs, s', op, ops, answers);
    AddRepeats(op, ops, answers);
  }
}
