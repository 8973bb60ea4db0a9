/** The batches of an executor and the memo of its source lists.  Some memo entries are the very lists
    of the batches, others are copies; what is proved is which entries stay right, and when. */
module Executor {
  import opened Std

  /** A node, by identity. */
  datatype Node = Node(id: nat)

  datatype BatchView = BatchView(targets: seq<Node>, sources: seq<Node>)

  type View = seq<BatchView>

  /** The key of a memo entry: a target, or none for all batches, and the nodes to leave out. */
  datatype Key = Key(node: Option<Node>, ignore: seq<Node>)

  datatype Error = AssertionError | IndexError

  // ---- What a source list should be ----

  function AllTargets(v: View): seq<Node> {
    if v == [] then [] else v[0].targets + AllTargets(v[1..])
  }

  function AllSources(v: View): seq<Node> {
    if v == [] then [] else v[0].sources + AllSources(v[1..])
  }

  /** The first batch that builds the node. */
  function BatchOf(v: View, n: Node): (i: Option<nat>)
    ensures i.Some? ==> i.value < |v| && n in v[i.value].targets && forall j | 0 <= j < i.value :: n !in v[j].targets
    ensures i.None? ==> forall j | 0 <= j < |v| :: n !in v[j].targets
  {
    if v == [] then None
    else if n in v[0].targets then Some(0)
    else match BatchOf(v[1..], n)
         case Some(i) => Some(i + 1)
         case None => assert forall j | 1 <= j < |v| :: v[j] == v[1..][j - 1]; None
  }

  function LeaveOut(s: seq<Node>, ignore: seq<Node>): (r: seq<Node>)
    ensures forall x :: x in r <==> x in s && x !in ignore
  {
    if s == [] then [] else (if s[0] in ignore then [] else [s[0]]) + LeaveOut(s[1..], ignore)
  }

  function Listed(v: View, node: Option<Node>): seq<Node> {
    match node
    case None => AllSources(v)
    case Some(n) => if BatchOf(v, n).Some? then v[BatchOf(v, n).value].sources else []
  }

  /** The list computed from scratch. */
  function SourcesFor(v: View, k: Key): seq<Node> {
    if k.ignore == [] then Listed(v, k.node) else LeaveOut(Listed(v, k.node), k.ignore)
  }

  lemma {:induction false} LeaveOutNothing(s: seq<Node>)
    ensures LeaveOut(s, []) == s
  {
    if s != [] {
      LeaveOutNothing(s[1..]);
      assert s == [s[0]] + s[1..];
    }
  }

  lemma {:induction false} LeaveOutConcat(a: seq<Node>, b: seq<Node>, ignore: seq<Node>)
    ensures LeaveOut(a + b, ignore) == LeaveOut(a, ignore) + LeaveOut(b, ignore)
  {
    if a == [] {
      assert a + b == b;
    } else {
      assert (a + b)[1..] == a[1..] + b;
      LeaveOutConcat(a[1..], b, ignore);
    }
  }

  lemma LeaveOutSnoc(s: seq<Node>, i: nat, ignore: seq<Node>)
    requires i < |s|
    ensures LeaveOut(s[..i + 1], ignore) == LeaveOut(s[..i], ignore) + (if s[i] in ignore then [] else [s[i]])
  {
    assert s[..i + 1] == s[..i] + [s[i]];
    LeaveOutConcat(s[..i], [s[i]], ignore);
    assert [s[i]][1..] == [];
  }

  lemma {:induction false} LeaveOutAllExactly(s: seq<Node>, ignore: seq<Node>)
    ensures LeaveOut(s, ignore) == [] <==> forall x | x in s :: x in ignore
  {
    if s != [] {
      assert s[0] in s;
      LeaveOutAllExactly(s[1..], ignore);
      assert s == [s[0]] + s[1..];
    }
  }

  lemma SourcesForLeavesOut(v: View, k: Key)
    ensures SourcesFor(v, k) == LeaveOut(Listed(v, k.node), k.ignore)
  {
    LeaveOutNothing(Listed(v, k.node));
  }

  lemma {:induction false} AllSourcesSnoc(v: View, b: BatchView)
    ensures AllSources(v + [b]) == AllSources(v) + b.sources
  {
    if v == [] {
      assert [] + [b] == [b] && [b][1..] == [];
      assert b.sources + [] == b.sources && [] + b.sources == b.sources;
    } else {
      assert (v + [b])[1..] == v[1..] + [b];
      AllSourcesSnoc(v[1..], b);
    }
  }

  lemma {:induction false} BatchOfSnoc(v: View, b: BatchView, n: Node)
    ensures BatchOf(v + [b], n) == if BatchOf(v, n).Some? then BatchOf(v, n) else if n in b.targets then Some(|v|) else None
  {
    if v == [] {
      assert [] + [b] == [b] && [b][1..] == [];
    } else {
      assert (v + [b])[1..] == v[1..] + [b];
      BatchOfSnoc(v[1..], b, n);
    }
  }

  // ---- The state of an executor, as a value ----

  /** A memo entry that is the source list of a batch, or a copy made when it was computed, or such a copy
      that a caller has since given to a batch for its list. */
  datatype Entry = Live(batch: nat) | Copy(items: seq<Node>) | Adopted(batch: nat)

  datatype State = State(view: View, memo: map<Key, Entry>)

  /** What a memo entry holds now. */
  function Held(s: State, k: Key): seq<Node>
    requires k in s.memo
  {
    match s.memo[k]
    case Live(i) => if i < |s.view| then s.view[i].sources else []
    case Copy(items) => items
    case Adopted(i) => if i < |s.view| then s.view[i].sources else []
  }

  /** A key whose list is not copied. */
  predicate Shared(v: View, k: Key) { k.ignore == [] && k.node.Some? && BatchOf(v, k.node.value).Some? }

  function NewEntry(v: View, k: Key): Entry {
    if Shared(v, k) then Live(BatchOf(v, k.node.value).value) else Copy(SourcesFor(v, k))
  }

  /** `get_unignored_sources`: the state afterwards. */
  function Asked(s: State, k: Key): State {
    if k in s.memo then s else State(s.view, s.memo[k := NewEntry(s.view, k)])
  }

  /** The sources `add_sources` adds: those the batch does not have; repetitions among them stay. */
  function Fresh(v: View, sources: seq<Node>): seq<Node>
    requires |v| == 1
  {
    LeaveOut(sources, v[0].sources)
  }

  /** `add_sources`; an executor with any other number of batches raises an exception. */
  function AddSourcesTo(s: State, sources: seq<Node>): State
    requires |s.view| == 1
  {
    State([BatchView(s.view[0].targets, s.view[0].sources + Fresh(s.view, sources))], s.memo)
  }

  /** `add_batch`: `adopt` are the keys whose copies are the very list the batch is given. */
  function AddBatchTo(s: State, b: BatchView, adopt: set<Key>): State {
    State(s.view + [b], map k | k in s.memo :: if k in adopt then Adopted(|s.view|) else s.memo[k])
  }

  predicate Adoptable(s: State, b: BatchView, adopt: set<Key>) {
    forall k | k in adopt :: k in s.memo && s.memo[k] == Copy(b.sources)
  }

  function Cleaned(s: State): State { State(s.view, map[]) }

  /** Live entries point at the batch their key asks for. */
  predicate WellFormed(s: State) {
    && (forall k | k in s.memo && s.memo[k].Live? ::
          Shared(s.view, k) && s.memo[k].batch == BatchOf(s.view, k.node.value).value)
    && forall k | k in s.memo && s.memo[k].Adopted? :: s.memo[k].batch < |s.view|
  }

  /** The entry is what would be computed now. */
  predicate Coherent(s: State, k: Key) { k in s.memo ==> Held(s, k) == SourcesFor(s.view, k) }

  // ---- Which entries stay right ----

  lemma AskKeeps(s: State, k: Key)
    requires WellFormed(s)
    ensures WellFormed(Asked(s, k))
    ensures k !in s.memo ==> Coherent(Asked(s, k), k)
    ensures forall j | j in s.memo :: Asked(s, k).memo[j] == s.memo[j]
  {
  }

  /** An entry that is a batch's own list is always right. */
  lemma LiveCoherent(s: State, k: Key)
    requires WellFormed(s) && k in s.memo && s.memo[k].Live?
    ensures Coherent(s, k)
  {
  }

  lemma ListedInOne(b: BatchView, node: Option<Node>)
    ensures Listed([b], node) == if node.None? || node.value in b.targets then b.sources else []
  {
    var v := [b];
    assert v[1..] == [] && b.sources + [] == b.sources;
    match node {
      case None => assert AllSources(v) == v[0].sources + AllSources(v[1..]);
      case Some(n) => assert BatchOf(v, n) == if n in v[0].targets then Some(0) else None;
    }
  }

  lemma AddSourcesView(v: View, sources: seq<Node>, k: Key)
    requires |v| == 1
    ensures SourcesFor(AddSourcesTo(State(v, map[]), sources).view, k) ==
              if k.node.None? || k.node.value in v[0].targets then SourcesFor(v, k) + LeaveOut(Fresh(v, sources), k.ignore)
              else SourcesFor(v, k)
  {
    var more := Fresh(v, sources);
    var b' := BatchView(v[0].targets, v[0].sources + more);
    assert v == [v[0]];
    ListedInOne(v[0], k.node);
    ListedInOne(b', k.node);
    SourcesForLeavesOut(v, k);
    SourcesForLeavesOut([b'], k);
    LeaveOutConcat(v[0].sources, more, k.ignore);
  }

  /** The key asks for sources of the only batch. */
  predicate Affected(v: View, k: Key)
    requires |v| == 1
  {
    k.node.None? || k.node.value in v[0].targets
  }

  /** `add_sources` appends, in their order and as often as they are given, exactly the sources that the
      batch does not have. */
  lemma AddedSources(s: State, sources: seq<Node>)
    requires |s.view| == 1
    ensures var after := AddSourcesTo(s, sources);
            && |after.view| == 1 && after.view[0].targets == s.view[0].targets && s.view[0].sources <= after.view[0].sources
            && var added := after.view[0].sources[|s.view[0].sources|..];
               && Subsequence(added, sources)
               && forall x :: multiset(added)[x] == if x in s.view[0].sources then 0 else multiset(sources)[x]
  {
    LeftOut(sources, s.view[0].sources);
    var after := AddSourcesTo(s, sources);
    assert after.view[0].sources[|s.view[0].sources|..] == Fresh(s.view, sources);
  }

  lemma {:induction false} LeftOut(s: seq<Node>, ignore: seq<Node>)
    ensures Subsequence(LeaveOut(s, ignore), s)
    ensures forall x :: multiset(LeaveOut(s, ignore))[x] == if x in ignore then 0 else multiset(s)[x]
  {
    if s != [] {
      LeftOut(s[1..], ignore);
      LeftOutOrder(s, ignore);
      LeftOutCount(s[0], s[1..], ignore, LeaveOut(s[1..], ignore));
      assert s == [s[0]] + s[1..];
    }
  }

  lemma LeftOutOrder(s: seq<Node>, ignore: seq<Node>)
    requires s != [] && Subsequence(LeaveOut(s[1..], ignore), s[1..])
    ensures Subsequence(LeaveOut(s, ignore), s)
  {
    var first, rest := [s[0]], LeaveOut(s[1..], ignore);
    assert s == first + s[1..];
    if s[0] in ignore {
      SubsequenceSkip(first, rest, s[1..]);
      assert [] + rest == rest;
    } else {
      SubsequenceBoth(first, rest, s[1..]);
    }
  }

  lemma LeftOutCount(y: Node, s: seq<Node>, ignore: seq<Node>, rest: seq<Node>)
    requires forall x :: multiset(rest)[x] == if x in ignore then 0 else multiset(s)[x]
    ensures var kept := if y in ignore then rest else [y] + rest;
            forall x :: multiset(kept)[x] == if x in ignore then 0 else multiset([y] + s)[x]
  {
    assert multiset([y] + s) == multiset{y} + multiset(s) && multiset([y] + rest) == multiset{y} + multiset(rest);
  }

  /** After `add_sources`, an entry that was right is still right exactly when it is the batch's own list;
      or a copy, and it is for a target of no batch or leaves out every source that was added; or a copy
      that became the batch's list, and it leaves out none of them, or is for no batch and there are
      none. */
  lemma AddSourcesExactly(s: State, sources: seq<Node>, k: Key)
    requires WellFormed(s) && |s.view| == 1 && k in s.memo && Coherent(s, k)
    ensures WellFormed(AddSourcesTo(s, sources))
    ensures var added := Fresh(s.view, sources);
            Coherent(AddSourcesTo(s, sources), k) <==>
            match s.memo[k]
            case Live(_) => true
            case Copy(_) => !Affected(s.view, k) || forall x | x in added :: x in k.ignore
            case Adopted(_) => if Affected(s.view, k) then forall x | x in added :: x !in k.ignore else added == []
  {
    var s' := AddSourcesTo(s, sources);
    var added := Fresh(s.view, sources);
    StepKeeps(s, Extend(sources));
    AddSourcesView(s.view, sources, k);
    LeaveOutAllExactly(added, k.ignore);
    LeaveOutNoneExactly(added, k.ignore);
    if s.memo[k].Live? { LiveCoherent(s', k); }
    if s.memo[k].Adopted? {
      var old_ := s.view[0].sources;
      SamePrefix(old_, added, LeaveOut(added, k.ignore));
      SamePrefix(old_, added, []);
      assert old_ + [] == old_;
    }
  }

  lemma SamePrefix(a: seq<Node>, b: seq<Node>, c: seq<Node>)
    ensures a + b == a + c <==> b == c
  {
    assert b == (a + b)[|a|..] && c == (a + c)[|a|..];
  }

  lemma {:induction false} LeaveOutNoneExactly(s: seq<Node>, ignore: seq<Node>)
    ensures |LeaveOut(s, ignore)| <= |s|
    ensures LeaveOut(s, ignore) == s <==> forall x | x in s :: x !in ignore
  {
    if s != [] {
      LeaveOutNoneExactly(s[1..], ignore);
      assert s == [s[0]] + s[1..];
      assert s[0] in s;
      if s[0] !in ignore { SamePrefix([s[0]], LeaveOut(s[1..], ignore), s[1..]); }
    }
  }

  lemma AddBatchView(v: View, b: BatchView, k: Key)
    ensures SourcesFor(v + [b], k) ==
            if k.node.None? then SourcesFor(v, k) + LeaveOut(b.sources, k.ignore)
            else if BatchOf(v, k.node.value).None? && k.node.value in b.targets then LeaveOut(b.sources, k.ignore)
            else SourcesFor(v, k)
  {
    SourcesForLeavesOut(v, k);
    SourcesForLeavesOut(v + [b], k);
    AllSourcesSnoc(v, b);
    LeaveOutConcat(AllSources(v), b.sources, k.ignore);
    if k.node.Some? { BatchOfSnoc(v, b, k.node.value); }
  }

  /** After `add_batch`, an entry that was right is still right exactly when its target already had a
      batch, or the new batch brings nothing for it: not the target, or no source but ignored ones. */
  lemma AddBatchExactly(s: State, b: BatchView, adopt: set<Key>, k: Key)
    requires WellFormed(s) && Adoptable(s, b, adopt) && k in s.memo && Coherent(s, k)
    ensures WellFormed(AddBatchTo(s, b, adopt))
    ensures Coherent(AddBatchTo(s, b, adopt), k) <==>
            || (k.node.Some? && BatchOf(s.view, k.node.value).Some?)
            || (k.node.Some? && k.node.value !in b.targets)
            || forall x | x in b.sources :: x in k.ignore
  {
    var s' := AddBatchTo(s, b, adopt);
    StepKeeps(s, Append(b, adopt));
    AddBatchView(s.view, b, k);
    LeaveOutAllExactly(b.sources, k.ignore);
    if k.node.Some? { BatchOfSnoc(s.view, b, k.node.value); }
    if s.memo[k].Live? { LiveCoherent(s', k); }
    HeldAfterBatch(s, b, adopt, k);
  }

  lemma HeldAfterBatch(s: State, b: BatchView, adopt: set<Key>, k: Key)
    requires WellFormed(s) && Adoptable(s, b, adopt) && k in s.memo
    ensures Held(AddBatchTo(s, b, adopt), k) == Held(s, k)
  {
    if k in adopt { assert (s.view + [b])[|s.view|] == b; }
  }

  // ---- Changed and unchanged ----

  /** What the nodes say: a target that is always built, one that is up to date, and the real file of a
      node. */
  datatype Facts = Facts(alwaysBuild: Node -> bool, upToDate: Node -> bool, rfile: Node -> Node)

  datatype Changes = Changes(
    changedSources: seq<Node>, changedTargets: seq<Node>,
    unchangedSources: seq<Node>, unchangedTargets: seq<Node>)

  /** The first target decides for its batch. */
  predicate Unchanged(f: Facts, b: BatchView) {
    b.targets != [] && !f.alwaysBuild(b.targets[0]) && f.upToDate(b.targets[0])
  }

  /** The batches on one side, in order. */
  function Side(f: Facts, v: View, same: bool): (r: View)
    ensures forall b :: b in r <==> b in v && Unchanged(f, b) == same
  {
    if v == [] then [] else (if Unchanged(f, v[0]) == same then [v[0]] else []) + Side(f, v[1..], same)
  }

  function Real(f: Facts, ns: seq<Node>): seq<Node> {
    if ns == [] then [] else [f.rfile(ns[0])] + Real(f, ns[1..])
  }

  /** `_get_changes`; a batch without targets raises an exception. */
  function GetChanges(f: Facts, v: View): Result<Changes, Error> {
    if !NonEmpty(v, |v|) then Err(IndexError)
    else Ok(SideLists(f, v))
  }

  /** The lists of sources hold the real file of each source. */
  lemma {:induction false} RealFiles(f: Facts, ns: seq<Node>)
    ensures |Real(f, ns)| == |ns| && forall i | 0 <= i < |ns| :: Real(f, ns)[i] == f.rfile(ns[i])
  {
    if ns != [] {
      RealFiles(f, ns[1..]);
      forall i | 0 <= i < |ns| ensures Real(f, ns)[i] == f.rfile(ns[i]) {
        if i > 0 { assert Real(f, ns)[i] == Real(f, ns[1..])[i - 1] == f.rfile(ns[1..][i - 1]); }
      }
    }
  }

  /** Computing them raises exactly when some batch has no targets. */
  lemma ChangesFailExactly(f: Facts, v: View)
    ensures GetChanges(f, v) == Err(IndexError) <==> exists b :: b in v && b.targets == []
    ensures GetChanges(f, v).Err? ==> GetChanges(f, v).error == IndexError
  {
    if b :| b in v && b.targets == [] {
      var i :| 0 <= i < |v| && v[i] == b;
    }
  }

  /** The first batches all have targets. */
  predicate NonEmpty(v: View, n: nat)
    requires n <= |v|
  {
    forall i | 0 <= i < n :: v[i].targets != []
  }

  lemma NonEmptyMore(v: View, n: nat)
    requires n < |v| && NonEmpty(v, n) && v[n].targets != []
    ensures NonEmpty(v, n + 1)
  {}

  function SideLists(f: Facts, v: View): Changes {
    var moved, kept := Side(f, v, false), Side(f, v, true);
    Changes(Real(f, AllSources(moved)), AllTargets(moved), Real(f, AllSources(kept)), AllTargets(kept))
  }

  ghost predicate Subsequence<T>(a: seq<T>, b: seq<T>) {
    a == [] || (b != [] && ((a[0] == b[0] && Subsequence(a[1..], b[1..])) || Subsequence(a, b[1..])))
  }

  lemma {:induction false} SubsequenceBoth<T>(p: seq<T>, a: seq<T>, b: seq<T>)
    requires Subsequence(a, b)
    ensures Subsequence(p + a, p + b)
  {
    if p == [] {
      assert p + a == a && p + b == b;
    } else {
      SubsequenceBoth(p[1..], a, b);
      assert (p + a)[1..] == p[1..] + a && (p + b)[1..] == p[1..] + b;
    }
  }

  lemma {:induction false} SubsequenceSkip<T>(p: seq<T>, a: seq<T>, b: seq<T>)
    requires Subsequence(a, b)
    ensures Subsequence(a, p + b)
  {
    if p == [] {
      assert p + b == b;
    } else {
      SubsequenceSkip(p[1..], a, b);
      assert (p + b)[1..] == p[1..] + b;
    }
  }

  /** Every target is on exactly one side, as often as it is listed. */
  lemma {:induction false} TargetsPartition(f: Facts, v: View)
    ensures multiset(AllTargets(Side(f, v, false))) + multiset(AllTargets(Side(f, v, true))) == multiset(AllTargets(v))
  {
    if v != [] {
      TargetsPartition(f, v[1..]);
      SideCons(f, v);
      assert multiset(AllTargets(v)) == multiset(v[0].targets) + multiset(AllTargets(v[1..]));
    }
  }

  /** Each side is some of the batches, in their order, and so are its targets and real sources. */
  lemma {:induction false} SidesInOrder(f: Facts, v: View, u: bool)
    ensures Subsequence(Side(f, v, u), v)
    ensures Subsequence(AllTargets(Side(f, v, u)), AllTargets(v))
    ensures Subsequence(Real(f, AllSources(Side(f, v, u))), Real(f, AllSources(v)))
  {
    if v != [] {
      SidesInOrder(f, v[1..], u);
      if u == Unchanged(f, v[0]) { OrderKeeps(f, v); } else { OrderSkips(f, v, u); }
    }
  }

  lemma OrderKeeps(f: Facts, v: View)
    requires v != []
    requires var side := Side(f, v[1..], Unchanged(f, v[0]));
             && Subsequence(side, v[1..]) && Subsequence(AllTargets(side), AllTargets(v[1..]))
             && Subsequence(Real(f, AllSources(side)), Real(f, AllSources(v[1..])))
    ensures var side := Side(f, v, Unchanged(f, v[0]));
            && Subsequence(side, v) && Subsequence(AllTargets(side), AllTargets(v))
            && Subsequence(Real(f, AllSources(side)), Real(f, AllSources(v)))
  {
    var b, rest, side := v[0], v[1..], Side(f, v[1..], Unchanged(f, v[0]));
    SideCons(f, v);
    RealConcat(f, b.sources, AllSources(rest));
    RealConcat(f, b.sources, AllSources(side));
    SubsequenceBoth([b], side, rest);
    SubsequenceBoth(b.targets, AllTargets(side), AllTargets(rest));
    SubsequenceBoth(Real(f, b.sources), Real(f, AllSources(side)), Real(f, AllSources(rest)));
    assert [b] + rest == v;
  }

  lemma OrderSkips(f: Facts, v: View, u: bool)
    requires v != [] && u != Unchanged(f, v[0])
    requires var side := Side(f, v[1..], u);
             && Subsequence(side, v[1..]) && Subsequence(AllTargets(side), AllTargets(v[1..]))
             && Subsequence(Real(f, AllSources(side)), Real(f, AllSources(v[1..])))
    ensures var side := Side(f, v, u);
            && Subsequence(side, v) && Subsequence(AllTargets(side), AllTargets(v))
            && Subsequence(Real(f, AllSources(side)), Real(f, AllSources(v)))
  {
    var b, rest, side := v[0], v[1..], Side(f, v[1..], u);
    SideCons(f, v);
    RealConcat(f, b.sources, AllSources(rest));
    SubsequenceSkip([b], side, rest);
    SubsequenceSkip(b.targets, AllTargets(side), AllTargets(rest));
    SubsequenceSkip(Real(f, b.sources), Real(f, AllSources(side)), Real(f, AllSources(rest)));
    assert [b] + rest == v;
  }

  lemma SideCons(f: Facts, v: View)
    requires v != []
    ensures var same := Unchanged(f, v[0]);
            && AllTargets(Side(f, v, same)) == v[0].targets + AllTargets(Side(f, v[1..], same))
            && AllSources(Side(f, v, same)) == v[0].sources + AllSources(Side(f, v[1..], same))
            && Side(f, v, !same) == Side(f, v[1..], !same)
  {
    var same := Unchanged(f, v[0]);
    assert Side(f, v, same)[1..] == Side(f, v[1..], same);
  }

  /** The lists with one more batch. */
  function Put(f: Facts, c: Changes, b: BatchView): Changes {
    var files := Real(f, b.sources);
    if Unchanged(f, b)
    then Changes(c.changedSources, c.changedTargets, c.unchangedSources + files, c.unchangedTargets + b.targets)
    else Changes(c.changedSources + files, c.changedTargets + b.targets, c.unchangedSources, c.unchangedTargets)
  }

  lemma SideListsPut(f: Facts, v: View, i: nat)
    requires i < |v|
    ensures SideLists(f, v[..i + 1]) == Put(f, SideLists(f, v[..i]), v[i])
  {
    var p, b := v[..i], v[i];
    var u := Unchanged(f, b);
    assert v[..i + 1] == p + [b];
    SideAppend(f, p, b, u);
    SideAppend(f, p, b, !u);
    assert Side(f, p, !u) + [] == Side(f, p, !u);
    AllSnoc(Side(f, p, u), b);
    RealConcat(f, AllSources(Side(f, p, u)), b.sources);
  }

  lemma {:induction false} SideAppend(f: Facts, v: View, b: BatchView, u: bool)
    ensures Side(f, v + [b], u) == Side(f, v, u) + (if Unchanged(f, b) == u then [b] else [])
  {
    if v == [] {
      assert v + [b] == [b] && [b][1..] == [];
    } else {
      assert (v + [b])[1..] == v[1..] + [b];
      SideAppend(f, v[1..], b, u);
    }
  }

  lemma {:induction false} AllSnoc(v: View, b: BatchView)
    ensures AllTargets(v + [b]) == AllTargets(v) + b.targets && AllSources(v + [b]) == AllSources(v) + b.sources
  {
    AllSourcesSnoc(v, b);
    if v == [] {
      assert v + [b] == [b] && [b][1..] == [];
      assert b.targets + [] == b.targets && [] + b.targets == b.targets;
    } else {
      assert (v + [b])[1..] == v[1..] + [b];
      AllSnoc(v[1..], b);
    }
  }

  /** The four lists come from a split of the batches in two, in order: `moved` and `kept`. */
  ghost predicate SplitAs(f: Facts, v: View, c: Changes, moved: View, kept: View) {
    && Subsequence(moved, v) && Subsequence(kept, v) && multiset(moved) + multiset(kept) == multiset(v)
    && c.changedTargets == AllTargets(moved) && c.changedSources == Real(f, AllSources(moved))
    && c.unchangedTargets == AllTargets(kept) && c.unchangedSources == Real(f, AllSources(kept))
  }

  /** The four lists partition the targets and the real sources, in the order of the batches.  The targets
      and the sources of a batch are on the same side, since the lists come from a split of the batches;
      and a batch that is always built is on the changed side. */
  lemma ChangesConserve(f: Facts, v: View)
    requires GetChanges(f, v).Ok?
    ensures var c := GetChanges(f, v).value;
            && multiset(c.changedTargets) + multiset(c.unchangedTargets) == multiset(AllTargets(v))
            && multiset(c.changedSources) + multiset(c.unchangedSources) == multiset(Real(f, AllSources(v)))
            && Subsequence(c.changedTargets, AllTargets(v)) && Subsequence(c.unchangedTargets, AllTargets(v))
            && Subsequence(c.changedSources, Real(f, AllSources(v)))
            && Subsequence(c.unchangedSources, Real(f, AllSources(v)))
            && exists moved, kept :: SplitAs(f, v, c, moved, kept) && Decided(f, v, moved, kept)
  {
    TargetsPartition(f, v);
    RealPartition(f, v, false);
    SidesInOrder(f, v, false);
    SidesInOrder(f, v, true);
    ChangesSplit(f, v);
  }

  lemma ChangesSplit(f: Facts, v: View)
    requires GetChanges(f, v).Ok?
    ensures exists moved, kept :: SplitAs(f, v, SideLists(f, v), moved, kept) && Decided(f, v, moved, kept)
  {
    SidesInOrder(f, v, false);
    SidesInOrder(f, v, true);
    BatchesPartition(f, v);
    SidesDecided(f, v);
    assert SplitAs(f, v, SideLists(f, v), Side(f, v, false), Side(f, v, true));
  }

  /** The first target of a batch decides on which side the batch is. */
  ghost predicate Decided(f: Facts, v: View, moved: View, kept: View) {
    forall b | b in v :: b.targets != [] && (b in moved <==> b !in kept) &&
                         (b in kept <==> !f.alwaysBuild(b.targets[0]) && f.upToDate(b.targets[0]))
  }

  lemma SidesDecided(f: Facts, v: View)
    requires NonEmpty(v, |v|)
    ensures Decided(f, v, Side(f, v, false), Side(f, v, true))
  {
    forall b | b in v ensures b.targets != [] {
      var i :| 0 <= i < |v| && v[i] == b;
    }
  }

  lemma {:induction false} BatchesPartition(f: Facts, v: View)
    ensures multiset(Side(f, v, false)) + multiset(Side(f, v, true)) == multiset(v)
  {
    if v != [] {
      BatchesPartition(f, v[1..]);
      assert v == [v[0]] + v[1..];
    }
  }

  lemma LengthsConserve(f: Facts, v: View)
    requires GetChanges(f, v).Ok?
    ensures var c := GetChanges(f, v).value;
            && |c.changedTargets| + |c.unchangedTargets| == |AllTargets(v)|
            && |c.changedSources| + |c.unchangedSources| == |AllSources(v)|
  {
    var c := GetChanges(f, v).value;
    ChangesConserve(f, v);
    RealFiles(f, AllSources(v));
    assert |multiset(c.changedTargets) + multiset(c.unchangedTargets)| == |multiset(AllTargets(v))|;
    assert |multiset(c.changedSources) + multiset(c.unchangedSources)| == |multiset(Real(f, AllSources(v)))|;
  }

  /** The remembered lists are out of date after every `add_batch`. */
  lemma ChangesStaleAfterBatch(f: Facts, v: View, b: BatchView)
    requires GetChanges(f, v).Ok?
    ensures GetChanges(f, v + [b]) != GetChanges(f, v)
  {
    LengthsConserve(f, v);
    AllSnoc(v, b);
    if b.targets == [] {
      assert (v + [b])[|v|] == b;
    } else if GetChanges(f, v + [b]).Ok? {
      LengthsConserve(f, v + [b]);
    }
  }

  /** After `add_sources` they are right exactly when nothing was added. */
  lemma ChangesAfterSourcesExactly(f: Facts, s: State, sources: seq<Node>)
    requires |s.view| == 1 && GetChanges(f, s.view).Ok?
    ensures GetChanges(f, AddSourcesTo(s, sources).view) == GetChanges(f, s.view) <==> Fresh(s.view, sources) == []
  {
    var v, v' := s.view, AddSourcesTo(s, sources).view;
    assert v == [v[0]] && v'[0].targets == v[0].targets;
    assert GetChanges(f, v').Ok?;
    LengthsConserve(f, v);
    LengthsConserve(f, v');
    ListedInOne(v[0], None);
    ListedInOne(v'[0], None);
    if Fresh(v, sources) == [] { assert v[0].sources + [] == v[0].sources; }
  }

  lemma {:induction false} RealPartition(f: Facts, v: View, u: bool)
    ensures multiset(Real(f, AllSources(Side(f, v, u)))) + multiset(Real(f, AllSources(Side(f, v, !u)))) ==
            multiset(Real(f, AllSources(v)))
  {
    if v != [] {
      var same := Unchanged(f, v[0]);
      RealPartition(f, v[1..], same);
      RealPartitionCons(f, v);
      assert u == same || u == !same;
    }
  }

  lemma RealPartitionCons(f: Facts, v: View)
    requires v != []
    requires var same := Unchanged(f, v[0]);
             multiset(Real(f, AllSources(Side(f, v[1..], same)))) + multiset(Real(f, AllSources(Side(f, v[1..], !same)))) ==
             multiset(Real(f, AllSources(v[1..])))
    ensures var same := Unchanged(f, v[0]);
            multiset(Real(f, AllSources(Side(f, v, same)))) + multiset(Real(f, AllSources(Side(f, v, !same)))) ==
            multiset(Real(f, AllSources(v)))
  {
    var b, rest, same := v[0], v[1..], Unchanged(f, v[0]);
    SideCons(f, v);
    RealConcat(f, b.sources, AllSources(rest));
    RealConcat(f, b.sources, AllSources(Side(f, rest, same)));
    InFront(Real(f, b.sources), Real(f, AllSources(Side(f, rest, same))), Real(f, AllSources(Side(f, rest, !same))),
            Real(f, AllSources(rest)));
  }

  lemma InFront(p: seq<Node>, x: seq<Node>, y: seq<Node>, all: seq<Node>)
    requires multiset(x) + multiset(y) == multiset(all)
    ensures multiset(p + x) + multiset(y) == multiset(p + all)
  {}

  lemma {:induction false} RealConcat(f: Facts, a: seq<Node>, b: seq<Node>)
    ensures Real(f, a + b) == Real(f, a) + Real(f, b)
  {
    if a == [] {
      assert a + b == b;
    } else {
      assert (a + b)[1..] == a[1..] + b;
      RealConcat(f, a[1..], b);
    }
  }

  // ---- Any run ----

  datatype Op = Ask(k: Key) | Extend(sources: seq<Node>) | Append(b: BatchView, adopt: set<Key>) | Clean

  predicate Possible(s: State, op: Op) {
    (op.Extend? ==> |s.view| == 1) && (op.Append? ==> Adoptable(s, op.b, op.adopt))
  }

  function Apply(s: State, op: Op): State
    requires Possible(s, op)
  {
    match op
    case Ask(k) => Asked(s, k)
    case Extend(sources) => AddSourcesTo(s, sources)
    case Append(b, adopt) => AddBatchTo(s, b, adopt)
    case Clean => Cleaned(s)
  }

  /** A run: `states[i + 1]` follows `states[i]` by `ops[i]`. */
  ghost predicate Run(states: seq<State>, ops: seq<Op>) {
    && |states| == |ops| + 1 && states[0].memo == map[]
    && forall i | 0 <= i < |ops| :: StepAt(states, ops, i)
  }

  ghost predicate StepAt(states: seq<State>, ops: seq<Op>, i: nat)
    requires |states| == |ops| + 1 && i < |ops|
  {
    Possible(states[i], ops[i]) && states[i + 1] == Apply(states[i], ops[i])
  }

  /** When the entry of `k` that the memo holds after `n` steps was made. */
  function MadeAt(ops: seq<Op>, k: Key, n: nat): (m: Option<nat>)
    requires n <= |ops|
    ensures m.Some? ==> m.value < n && ops[m.value] == Ask(k)
  {
    if n == 0 then None
    else
      var before := MadeAt(ops, k, n - 1);
      match ops[n - 1]
      case Ask(k') => if k' == k && before.None? then Some(n - 1) else before
      case Clean => None
      case _ => before
  }

  lemma StepKeeps(s: State, op: Op)
    requires WellFormed(s) && Possible(s, op)
    ensures WellFormed(Apply(s, op))
  {
    match op {
      case Ask(k) => AskKeeps(s, k);
      case Extend(sources) =>
        var s' := AddSourcesTo(s, sources);
        forall j | j in s'.memo && s'.memo[j].Live?
          ensures Shared(s'.view, j) && s'.memo[j].batch == BatchOf(s'.view, j.node.value).value
        {
          assert s'.view[0].targets == s.view[0].targets;
        }
      case Append(b, _) =>
        forall j | j in s.memo && s.memo[j].Live? ensures BatchOf(s.view + [b], j.node.value) == BatchOf(s.view, j.node.value) {
          BatchOfSnoc(s.view, b, j.node.value);
        }
      case Clean =>
    }
  }

  /** In any run, the memo holds for a key what was computed when the key was first asked for since the
      last clean-up; except that the list of a batch is held itself and so is always up to date, and a
      copy that was given to a batch is from then on whatever that batch has. */
  lemma {:induction false} RunAnswers(states: seq<State>, ops: seq<Op>, k: Key, n: nat)
    requires Run(states, ops) && n <= |ops|
    ensures WellFormed(states[n])
    ensures k in states[n].memo <==> MadeAt(ops, k, n).Some?
    ensures k in states[n].memo ==>
              (var m := MadeAt(ops, k, n).value;
               && (states[n].memo[k].Live? <==> Shared(states[m].view, k))
               && Held(states[n], k) == match states[n].memo[k]
                                        case Live(_) => SourcesFor(states[n].view, k)
                                        case Copy(_) => SourcesFor(states[m].view, k)
                                        case Adopted(i) => states[n].view[i].sources)
  {
    if n > 0 {
      RunAnswers(states, ops, k, n - 1);
      assert StepAt(states, ops, n - 1);
      var s, s' := states[n - 1], states[n];
      StepKeeps(s, ops[n - 1]);
      if k in s.memo && k in s'.memo {
        assert s'.memo[k] == s.memo[k] || (s.memo[k].Copy? && s'.memo[k].Adopted?);
      }
      if k in s'.memo && s'.memo[k].Live? { LiveCoherent(s', k); }
    }
  }

  // ---- The code ----

  /** A list object. */
  class NodeList {
    var items: seq<Node>

    constructor (items: seq<Node>)
      ensures this.items == items
    { this.items := items; }
  }

  class Batch {
    const targets: seq<Node>
    const sources: NodeList

    constructor (targets: seq<Node>, sources: NodeList)
      ensures this.targets == targets && this.sources == sources
    { this.targets, this.sources := targets, sources; }
  }

  ghost function Lists(bs: seq<Batch>): set<NodeList> { set b | b in bs :: b.sources }

  function ViewOf(bs: seq<Batch>): (v: View)
    reads Lists(bs)
    ensures |v| == |bs| && forall i | 0 <= i < |bs| :: v[i] == BatchView(bs[i].targets, bs[i].sources.items)
  {
    if bs == [] then [] else
      assert bs[0] in bs && forall b | b in bs[1..] :: b in bs;
      [BatchView(bs[0].targets, bs[0].sources.items)] + ViewOf(bs[1..])
  }

  /** A memo entry is the list of its batch, or a list of its own with the recorded items. */
  ghost predicate Tied(bs: seq<Batch>, s: State, k: Key, list: NodeList)
    requires k in s.memo
    reads list
  {
    match s.memo[k]
    case Live(i) => i < |bs| && list == bs[i].sources
    case Copy(items) => list !in Lists(bs) && list.items == items
    case Adopted(i) => i < |bs| && list == bs[i].sources
  }

  class Executor {
    var batches: seq<Batch>
    var memo: map<Key, NodeList>
    var changes: Option<Changes>
    ghost var state: State

    /** The fields are what `state` says. */
    ghost predicate Valid()
      reads this, Lists(batches), memo.Values
    {
      && state.view == ViewOf(batches) && memo.Keys == state.memo.Keys && WellFormed(state)
      && forall k | k in memo :: Tied(batches, state, k, memo[k])
    }

    constructor (targets: seq<Node>, sources: seq<Node>)
      ensures Valid() && state == State(if targets != [] || sources != [] then [BatchView(targets, sources)] else [], map[])
    {
      var list := new NodeList(sources);
      var batch := new Batch(targets, list);
      batches := if targets != [] || sources != [] then [batch] else [];
      changes := None;
      memo, state := map[], State(if targets != [] || sources != [] then [BatchView(targets, sources)] else [], map[]);
    }

    method GetAllSources() returns (result: seq<Node>)
      ensures result == AllSources(ViewOf(batches))
    {
      result := [];
      var i := 0;
      ghost var v := ViewOf(batches);
      assert v[0..] == v;
      while i < |batches|
        invariant 0 <= i <= |batches| && result + AllSources(v[i..]) == AllSources(v)
      {
        assert v[i..][1..] == v[i + 1..];
        result := result + batches[i].sources.items;
        i := i + 1;
      }
    }

    static method Filter(items: seq<Node>, ignore: seq<Node>) returns (r: seq<Node>)
      ensures r == LeaveOut(items, ignore)
    {
      r := [];
      var i := 0;
      while i < |items|
        invariant 0 <= i <= |items| && r == LeaveOut(items[..i], ignore)
      {
        LeaveOutSnoc(items, i, ignore);
        if items[i] !in ignore { r := r + [items[i]]; }
        i := i + 1;
      }
      assert items[..i] == items;
    }

    /** The batch that builds a node. */
    method FindBatch(n: Node) returns (i: Option<nat>)
      ensures i == BatchOf(ViewOf(batches), n)
    {
      var j := 0;
      while j < |batches|
        invariant 0 <= j <= |batches| && forall h | 0 <= h < j :: n !in batches[h].targets
      {
        if n in batches[j].targets {
          assert ViewOf(batches)[j].targets == batches[j].targets;
          return Some(j);
        }
        j := j + 1;
      }
      i := None;
    }

    /** The list for a key that is not in the memo. */
    method Compute(k: Key) returns (list: NodeList, ghost at: Option<nat>)
      requires Valid()
      ensures Shared(ViewOf(batches), k) ==>
                at == BatchOf(ViewOf(batches), k.node.value) && list == batches[at.value].sources
      ensures !Shared(ViewOf(batches), k) ==> fresh(list) && list.items == SourcesFor(ViewOf(batches), k)
    {
      ghost var v := ViewOf(batches);
      list, at := Unfiltered(k.node);
      assert ViewOf(batches) == v && list.items == Listed(v, k.node);
      if k.ignore != [] {
        var left := Filter(list.items, k.ignore);
        list := new NodeList(left);
      }
      assert ViewOf(batches) == v;
    }

    /** The list before anything is left out of it. */
    method Unfiltered(node: Option<Node>) returns (list: NodeList, ghost at: Option<nat>)
      ensures list.items == Listed(ViewOf(batches), node)
      ensures node.Some? ==> at == BatchOf(ViewOf(batches), node.value)
      ensures if node.Some? && at.Some? then list == batches[at.value].sources else fresh(list)
    {
      if node.Some? {
        list, at := SourcesOf(node.value);
      } else {
        ghost var v := ViewOf(batches);
        at := None;
        var all := GetAllSources();
        assert ViewOf(batches) == v && all == AllSources(v);
        list := new NodeList(all);
        assert ViewOf(batches) == v;
      }
    }

    method SourcesOf(n: Node) returns (list: NodeList, ghost at: Option<nat>)
      ensures at == BatchOf(ViewOf(batches), n)
      ensures list.items == Listed(ViewOf(batches), Some(n))
      ensures if at.Some? then list == batches[at.value].sources else fresh(list)
    {
      ghost var v := ViewOf(batches);
      var i := FindBatch(n);
      at := i;
      if i.Some? {
        list := batches[i.value].sources;
        assert v[i.value] == BatchView(batches[i.value].targets, batches[i.value].sources.items);
      } else {
        list := new NodeList([]);
      }
      assert ViewOf(batches) == v;
    }

    /** The loop of `_get_changes`. */
    method ComputeChanges(f: Facts) returns (r: Result<Changes, Error>)
      ensures r == GetChanges(f, ViewOf(batches))
    {
      ghost var v := ViewOf(batches);
      var changedSources: seq<Node>, changedTargets: seq<Node> := [], [];
      var unchangedSources: seq<Node>, unchangedTargets: seq<Node> := [], [];
      var i := 0;
      assert v[..0] == [];
      while i < |batches|
        invariant 0 <= i <= |batches| && NonEmpty(v, i)
        invariant Changes(changedSources, changedTargets, unchangedSources, unchangedTargets) == SideLists(f, v[..i])
      {
        var b := batches[i];
        assert v[i] == BatchView(b.targets, b.sources.items);
        if |b.targets| == 0 {
          assert v[i].targets == [] && GetChanges(f, v) == Err(IndexError);
          assert ViewOf(batches) == v;
          return Err(IndexError);
        }
        var files := Real(f, b.sources.items);
        ghost var c := SideLists(f, v[..i]);
        NonEmptyMore(v, i);
        SideListsPut(f, v, i);
        if !f.alwaysBuild(b.targets[0]) && f.upToDate(b.targets[0]) {
          unchangedSources := unchangedSources + files;
          unchangedTargets := unchangedTargets + b.targets;
        } else {
          changedSources := changedSources + files;
          changedTargets := changedTargets + b.targets;
        }
        assert Changes(changedSources, changedTargets, unchangedSources, unchangedTargets) == Put(f, c, v[i]);
        i := i + 1;
      }
      assert v[..i] == v && GetChanges(f, v) == Ok(SideLists(f, v));
      r := Ok(Changes(changedSources, changedTargets, unchangedSources, unchangedTargets));
      assert ViewOf(batches) == v;
    }

    /** Stores a list in the memo. */
    method Remember(k: Key, list: NodeList)
      requires Valid() && k !in memo && Tied(batches, Asked(state, k), k, list)
      modifies this`memo, this`state
      ensures Valid() && state == Asked(old(state), k)
      ensures memo == old(memo)[k := list]
    {
      ghost var v := ViewOf(batches);
      AskKeeps(state, k);
      memo := memo[k := list];
      state := Asked(state, k);
      assert ViewOf(batches) == v;
      assert forall j | j in old(memo) :: memo[j] == old(memo)[j] && state.memo[j] == old(state).memo[j];
    }

    /** `get_unignored_sources`. */
    method GetUnignoredSources(k: Key) returns (list: NodeList)
      requires Valid()
      modifies this`memo, this`state
      ensures Valid() && state == Asked(old(state), k)
      ensures k in memo && list == memo[k] && list.items == Held(state, k)
      ensures k !in old(memo) && !Shared(state.view, k) ==> fresh(list)
    {
      if k in memo {
        list := memo[k];
      } else {
        ghost var at;
        list, at := Compute(k);
        Remember(k, list);
      }
      assert Tied(batches, state, k, memo[k]);
    }

    /** `add_sources`. */
    method AddSources(sources: seq<Node>) returns (error: Option<Error>)
      requires Valid()
      modifies this`state, Lists(batches)
      ensures Valid()
      ensures |old(state).view| != 1 ==> error == Some(AssertionError) && state == old(state)
      ensures |old(state).view| == 1 ==> error == None && state == AddSourcesTo(old(state), sources)
    {
      if |batches| != 1 { return Some(AssertionError); }
      var list := batches[0].sources;
      var more := Filter(sources, list.items);
      list.items := list.items + more;
      StepKeeps(state, Extend(sources));
      state := AddSourcesTo(state, sources);
      error := None;
    }

    /** `add_batch`: the list becomes the executor's, whoever else holds it. */
    method AddBatch(targets: seq<Node>, sources: NodeList)
      requires Valid()
      modifies this`batches, this`state
      ensures Valid()
      ensures state == AddBatchTo(old(state), BatchView(targets, sources.items), Holding(old(memo), old(state), sources))
    {
      ghost var adopt := Holding(memo, state, sources);
      ghost var view := BatchView(targets, sources.items);
      ghost var bs, s := batches, state;
      var b := new Batch(targets, sources);
      batches := batches + [b];
      assert ViewOf(batches) == s.view + [view];
      StepKeeps(s, Append(view, adopt));
      state := AddBatchTo(s, view, adopt);
      forall k | k in memo ensures Tied(batches, state, k, memo[k]) {
        TiedAfterBatch(bs, s, b, adopt, k, memo[k]);
      }
    }

    method Cleanup()
      requires Valid()
      modifies this`memo, this`state, this`changes
      ensures Valid() && state == Cleaned(old(state)) && changes == None
    {
      memo, state, changes := map[], Cleaned(state), None;
    }

    /** `_get_changed_sources` and its three relatives: the lists are computed once, and then remembered
        whatever is added. */
    method RememberedChanges(f: Facts) returns (r: Result<Changes, Error>)
      modifies this`changes
      ensures old(changes).Some? ==> r == Ok(old(changes).value)
      ensures old(changes).None? ==> r == GetChanges(f, ViewOf(batches))
      ensures changes == if r.Ok? then Some(r.value) else None
    {
      if changes.Some? {
        r := Ok(changes.value);
      } else {
        ghost var v := ViewOf(batches);
        r := ComputeChanges(f);
        assert ViewOf(batches) == v && r == GetChanges(f, v);
        if r.Ok? { changes := Some(r.value); }
        assert ViewOf(batches) == v;
      }
    }
  }

  lemma TiedAfterBatch(bs: seq<Batch>, s: State, b: Batch, adopt: set<Key>, k: Key, list: NodeList)
    requires k in s.memo && |bs| == |s.view| && Tied(bs, s, k, list)
    requires k in adopt <==> s.memo[k].Copy? && list == b.sources
    ensures Tied(bs + [b], AddBatchTo(s, BatchView(b.targets, b.sources.items), adopt), k, list)
  {
    assert Lists(bs + [b]) == Lists(bs) + {b.sources};
    assert s.memo[k].Live? ==> (bs + [b])[s.memo[k].batch] == bs[s.memo[k].batch];
  }

  /** The keys whose copies are this list. */
  ghost function Holding(memo: map<Key, NodeList>, s: State, list: NodeList): set<Key> {
    set k | k in memo && k in s.memo && s.memo[k].Copy? && memo[k] == list
  }
}
