/** `_add_cppdefines`: adding to CPPDEFINES, in front or behind, with or without uniqueness. */
module CppDefines {
  import opened Std
  import opened Strings
  import opened Dedup
  import opened Defines

  // ---- Matching ----

  function FindEq(es: seq<Entry>, e: Entry): (r: Option<nat>)
    ensures r.Some? ==> r.value < |es| && PyEq(es[r.value], e) && forall i | 0 <= i < r.value :: !PyEq(es[i], e)
    ensures r.None? ==> forall i | 0 <= i < |es| :: !PyEq(es[i], e)
  {
    if es == [] then None
    else if PyEq(es[0], e) then Some(0)
    else match FindEq(es[1..], e)
         case Some(i) => Some(i + 1)
         case None => assert forall i | 1 <= i < |es| :: es[i] == es[1..][i - 1]; None
  }

  function FindNormal(es: seq<Entry>, e: Entry): (r: Option<nat>)
    ensures r.Some? ==> r.value < |es| && Normal(es[r.value]) == Normal(e) &&
                        forall i | 0 <= i < r.value :: Normal(es[i]) != Normal(e)
    ensures r.None? ==> forall i | 0 <= i < |es| :: Normal(es[i]) != Normal(e)
  {
    if es == [] then None
    else if Normal(es[0]) == Normal(e) then Some(0)
    else match FindNormal(es[1..], e)
         case Some(i) => Some(i + 1)
         case None => assert forall i | 1 <= i < |es| :: es[i] == es[1..][i - 1]; None
  }

  /** `_is_in`: the entry that matches, and whether Python takes it for true; an entry like the
      empty string is found and then treated as if it were not. */
  datatype Match = NoMatch | MatchAt(i: nat, truthy: bool)

  function IsIn(item: Entry, defines: seq<Entry>): (m: Match)
    ensures m.MatchAt? ==> m.i < |defines| && Normal(defines[m.i]) == Normal(item)
    ensures m.NoMatch? <==> forall i | 0 <= i < |defines| :: Normal(defines[i]) != Normal(item)
  {
    if FindEq(defines, item).Some? then MatchAt(FindEq(defines, item).value, Truthy(item))
    else if FindNormal(defines, item).Some? then
      var i := FindNormal(defines, item).value; MatchAt(i, Truthy(defines[i]))
    else NoMatch
  }

  /** Whether a match counts depends on the entry found, or on the item itself if that is in the deque. */
  lemma MatchCountsExactly(item: Entry, defines: seq<Entry>)
    requires IsIn(item, defines).MatchAt?
    ensures var m := IsIn(item, defines);
            m.truthy <==> Truthy(if exists i :: 0 <= i < |defines| && PyEq(defines[i], item) then item else defines[m.i])
  {}

  function RemoveAt(es: seq<Entry>, i: nat): seq<Entry>
    requires i < |es|
  {
    es[..i] + es[i + 1..]
  }

  /** The deque left after the check for `item`, and whether the item is to be added. */
  function Check(defines: seq<Entry>, item: Entry, unique: bool, deleteExisting: bool): (seq<Entry>, bool) {
    if !unique then (defines, true)
    else match IsIn(item, defines)
         case NoMatch => (defines, true)
         case MatchAt(i, truthy) =>
           if !truthy then (defines, true)
           else if deleteExisting then (RemoveAt(defines, i), true)
           else (defines, false)
  }

  datatype Mode = Mode(prepend: bool, unique: bool, deleteExisting: bool)

  /** Adding the items of a string, tuple or dictionary, one by one. */
  function AddOne(defines: seq<Entry>, item: Entry, mode: Mode): seq<Entry> {
    var (rest, add) := Check(defines, item, mode.unique, mode.deleteExisting);
    if !add then rest else if mode.prepend then [item] + rest else rest + [item]
  }

  function AddEach(defines: seq<Entry>, items: seq<Entry>, mode: Mode): seq<Entry>
    decreases items
  {
    if items == [] then defines else AddEach(AddOne(defines, items[0], mode), items[1..], mode)
  }

  /** Adding a list: every item is checked against the deque alone, and the survivors are added at
      the end, or one by one at the front, which reverses them. */
  function CheckList(defines: seq<Entry>, items: seq<Entry>, mode: Mode): (seq<Entry>, seq<Entry>)
    decreases items
  {
    if items == [] then (defines, [])
    else
      var (rest, add) := Check(defines, items[0], mode.unique, mode.deleteExisting);
      var (rest', tmp) := CheckList(rest, items[1..], mode);
      (rest', (if add then [items[0]] else []) + tmp)
  }

  function AddList(defines: seq<Entry>, items: seq<Entry>, mode: Mode): seq<Entry> {
    var (rest, tmp) := CheckList(defines, items, mode);
    if mode.prepend then Rev(tmp) + rest else rest + tmp
  }

  // ---- The whole function ----

  /** A dictionary inside a list becomes its items. */
  function Unpacked(e: Entry): seq<Entry> { if e.EDict? then TuplesOf(e.items) else [e] }

  function Flatten(es: seq<Entry>): seq<Entry> {
    if es == [] then [] else Unpacked(es[0]) + Flatten(es[1..])
  }

  /** The existing value as a deque. */
  function ToDeque(f: Form): Result<seq<Entry>, Error> {
    match f
    case FDeque(es) => Ok(es)
    case FStr(s) => Ok(EntriesOf(Words(s)))
    case FTuple(xs) => if |xs| > 2 then Err(UserError) else Ok([ETuple(xs)])
    case FList(es) => Ok(Flatten(es))
    case FDict(items) => Ok(TuplesOf(items))
    case FOther(_, elements) => if elements.Some? then Ok(elements.value) else Err(TypeError)
  }

  /** The value of CPPDEFINES afterwards, even when an exception is raised, and the exception. */
  datatype Outcome = Outcome(form: Option<Form>, error: Option<Error>)

  function AddToDeque(defines: seq<Entry>, val: Form, mode: Mode): (seq<Entry>, Option<Error>) {
    match val
    case FDict(items) => (AddEach(defines, TuplesOf(items), mode), None)
    case FStr(s) => (AddEach(defines, EntriesOf(Words(s)), mode), None)
    case FTuple(xs) =>
      if |xs| > 2 then (defines, Some(UserError))
      else if xs == [] then (defines, Some(IndexError))
      else
        var pair := if |xs| == 1 then [xs[0], ANone] else xs;
        if !Scalar(pair[0]) || !Scalar(pair[1]) then (defines, Some(UserError))
        else (AddOne(defines, ETuple(pair), mode), None)
    case FList(es) => (AddList(defines, es, mode), None)
    case FDeque(es) => (AddList(defines, es, mode), None)
    case FOther(_, _) => (defines, None)
  }

  function AddDefines(old_: Option<Form>, val: Form, mode: Mode): Outcome {
    match old_
    case None => Outcome(Some(if val.FStr? then FList(EntriesOf(Words(val.s))) else val), None)
    case Some(f) =>
      match ToDeque(f)
      case Err(e) => Outcome(old_, Some(e))
      case Ok(defines) =>
        var (after, error) := AddToDeque(defines, val, mode);
        Outcome(Some(FDeque(after)), error)
  }

  // ---- Uniqueness ----

  predicate Unique(es: seq<Entry>) {
    forall i, j | 0 <= i < j < |es| :: Normal(es[i]) != Normal(es[j])
  }

  predicate AllTruthy(es: seq<Entry>) {
    forall i | 0 <= i < |es| :: Truthy(es[i])
  }

  ghost predicate Names(es: seq<Entry>, n: Norm) {
    exists i :: 0 <= i < |es| && Normal(es[i]) == n
  }

  lemma UniqueSplit(a: seq<Entry>, b: seq<Entry>)
    ensures Unique(a + b) <==> Unique(a) && Unique(b) && forall n :: !(Names(a, n) && Names(b, n))
  {
    var s := a + b;
    if Unique(s) {
      forall i, j | 0 <= i < j < |a| ensures Normal(a[i]) != Normal(a[j]) { assert s[i] == a[i] && s[j] == a[j]; }
      forall i, j | 0 <= i < j < |b| ensures Normal(b[i]) != Normal(b[j]) {
        assert s[|a| + i] == b[i] && s[|a| + j] == b[j];
      }
      forall n | Names(a, n) ensures !Names(b, n) {
        var i :| 0 <= i < |a| && Normal(a[i]) == n;
        forall j | 0 <= j < |b| ensures Normal(b[j]) != n { assert s[i] == a[i] && s[|a| + j] == b[j]; }
      }
    }
    if Unique(a) && Unique(b) && forall n :: !(Names(a, n) && Names(b, n)) {
      forall i, j | 0 <= i < j < |s| ensures Normal(s[i]) != Normal(s[j]) {
        if i < |a| <= j {
          assert Names(a, Normal(s[i]));
          assert b[j - |a|] == s[j];
          if Normal(s[i]) == Normal(s[j]) { assert Names(b, Normal(s[i])); }
        }
      }
    }
  }

  lemma NamesSplit(a: seq<Entry>, b: seq<Entry>, n: Norm)
    ensures Names(a + b, n) <==> Names(a, n) || Names(b, n)
  {
    var s := a + b;
    if i :| 0 <= i < |a| && Normal(a[i]) == n { assert s[i] == a[i]; }
    if i :| 0 <= i < |b| && Normal(b[i]) == n { assert s[|a| + i] == b[i]; }
  }

  lemma NamesOne(e: Entry, n: Norm)
    ensures Names([e], n) <==> Normal(e) == n
  {
    if Normal(e) == n { assert [e][0] == e; }
  }

  /** Removing the match of an item from a deque without repetitions leaves no match. */
  lemma RemoveMatch(es: seq<Entry>, i: nat)
    requires i < |es| && Unique(es)
    ensures Unique(RemoveAt(es, i))
    ensures forall n :: Names(RemoveAt(es, i), n) <==> Names(es, n) && n != Normal(es[i])
    ensures AllTruthy(es) ==> AllTruthy(RemoveAt(es, i))
  {
    var a, b := es[..i], es[i + 1..];
    assert es == a + ([es[i]] + b);
    UniqueSplit(a, [es[i]] + b);
    UniqueSplit([es[i]], b);
    forall n ensures Names([es[i]] + b, n) <==> Normal(es[i]) == n || Names(b, n) {
      NamesSplit([es[i]], b, n);
      NamesOne(es[i], n);
    }
    UniqueSplit(a, b);
    forall n ensures Names(RemoveAt(es, i), n) <==> Names(es, n) && n != Normal(es[i]) {
      NamesSplit(a, [es[i]] + b, n);
      NamesSplit(a, b, n);
      NamesOne(es[i], n);
    }
  }

  /** What the check leaves, in terms of names. */
  lemma CheckNames(es: seq<Entry>, item: Entry, deleteExisting: bool)
    requires Unique(es)
    ensures var (rest, add) := Check(es, item, true, deleteExisting);
            var m := IsIn(item, es);
            && Unique(rest) && (AllTruthy(es) ==> AllTruthy(rest))
            && (add <==> m.NoMatch? || !m.truthy || deleteExisting)
            && (m.MatchAt? && m.truthy && deleteExisting ==>
                  forall n :: Names(rest, n) <==> Names(es, n) && n != Normal(item))
            && (!(m.MatchAt? && m.truthy && deleteExisting) ==> rest == es)
  {
    var m := IsIn(item, es);
    if m.MatchAt? { RemoveMatch(es, m.i); }
  }

  lemma IsInNames(item: Entry, es: seq<Entry>)
    ensures IsIn(item, es).NoMatch? <==> !Names(es, Normal(item))
  {}

  /** One unique addition to a deque without repetitions leaves one exactly when the match, if there
      is one, is not an entry Python takes for false.  Nothing is lost either way. */
  lemma AddOneUniqueExactly(es: seq<Entry>, item: Entry, mode: Mode)
    requires Unique(es) && mode.unique
    ensures Unique(AddOne(es, item, mode)) <==> IsIn(item, es).NoMatch? || IsIn(item, es).truthy
    ensures forall n :: Names(AddOne(es, item, mode), n) <==> Names(es, n) || n == Normal(item)
  {
    CheckNames(es, item, mode.deleteExisting);
    IsInNames(item, es);
    var (rest, add) := Check(es, item, true, mode.deleteExisting);
    if add {
      forall n ensures (Names([item] + rest, n) <==> Names(rest, n) || n == Normal(item)) &&
                       (Names(rest + [item], n) <==> Names(rest, n) || n == Normal(item)) {
        NamesSplit([item], rest, n);
        NamesSplit(rest, [item], n);
        NamesOne(item, n);
      }
      forall n ensures Names([item], n) <==> n == Normal(item) { NamesOne(item, n); }
      UniqueSplit([item], rest);
      UniqueSplit(rest, [item]);
    }
  }

  lemma TruthyMatch(es: seq<Entry>, item: Entry)
    requires AllTruthy(es) && Truthy(item)
    ensures IsIn(item, es).MatchAt? ==> IsIn(item, es).truthy
  {}

  lemma NamesCons(items: seq<Entry>, n: Norm)
    requires items != []
    ensures Names(items, n) <==> n == Normal(items[0]) || Names(items[1..], n)
  {
    assert items == [items[0]] + items[1..];
    NamesSplit([items[0]], items[1..], n);
    NamesOne(items[0], n);
  }

  lemma AddEachTruthy(es: seq<Entry>, item: Entry, mode: Mode)
    requires Unique(es) && AllTruthy(es) && Truthy(item) && mode.unique
    ensures AllTruthy(AddOne(es, item, mode))
  {
    CheckNames(es, item, mode.deleteExisting);
  }

  /** Unique additions of strings, tuples and dictionaries keep the deque free of repetitions. */
  lemma {:induction false} AddEachUnique(es: seq<Entry>, items: seq<Entry>, mode: Mode)
    requires Unique(es) && AllTruthy(es) && AllTruthy(items) && mode.unique
    ensures Unique(AddEach(es, items, mode)) && AllTruthy(AddEach(es, items, mode))
    ensures forall n :: Names(AddEach(es, items, mode), n) <==> Names(es, n) || Names(items, n)
    decreases items
  {
    if items == [] {
    } else {
      var es' := AddOne(es, items[0], mode);
      AddOneUniqueExactly(es, items[0], mode);
      TruthyMatch(es, items[0]);
      AddEachTruthy(es, items[0], mode);
      AddEachUnique(es', items[1..], mode);
      forall n ensures Names(items, n) <==> n == Normal(items[0]) || Names(items[1..], n) { NamesCons(items, n); }
    }
  }

  // ---- Unique lists ----

  /** The items a unique list addition appends. */
  function Appended(es: seq<Entry>, items: seq<Entry>, deleteExisting: bool): seq<Entry> {
    if items == [] then []
    else
      (if deleteExisting || IsIn(items[0], es).NoMatch? then [items[0]] else []) + Appended(es, items[1..], deleteExisting)
  }

  lemma {:induction false} CheckListKeep(es: seq<Entry>, items: seq<Entry>, mode: Mode)
    requires AllTruthy(es) && AllTruthy(items) && mode.unique && !mode.deleteExisting
    ensures CheckList(es, items, mode) == (es, Appended(es, items, false))
    decreases items
  {
    if items != [] {
      TruthyMatch(es, items[0]);
      var (rest, add) := Check(es, items[0], true, false);
      assert rest == es && (add <==> IsIn(items[0], es).NoMatch?);
      CheckListKeep(es, items[1..], mode);
    }
  }

  lemma {:induction false} CheckListDelete(es: seq<Entry>, items: seq<Entry>, mode: Mode)
    requires Unique(es) && AllTruthy(es) && AllTruthy(items) && mode.unique && mode.deleteExisting
    ensures var (rest, tmp) := CheckList(es, items, mode);
            tmp == items && Unique(rest) && forall n :: Names(rest, n) <==> Names(es, n) && !Names(items, n)
    decreases items
  {
    if items != [] {
      TruthyMatch(es, items[0]);
      CheckNames(es, items[0], true);
      IsInNames(items[0], es);
      var (rest, add) := Check(es, items[0], true, true);
      CheckListDelete(rest, items[1..], mode);
      assert items == [items[0]] + items[1..];
      forall n ensures Names(items, n) <==> n == Normal(items[0]) || Names(items[1..], n) { NamesCons(items, n); }
    }
  }

  lemma {:induction false} AllAppended(es: seq<Entry>, items: seq<Entry>)
    ensures Appended(es, items, true) == items
  {
    if items != [] {
      AllAppended(es, items[1..]);
      assert items == [items[0]] + items[1..];
    }
  }

  lemma {:induction false} AppendedNames(es: seq<Entry>, items: seq<Entry>, n: Norm)
    ensures Names(Appended(es, items, false), n) <==> Names(items, n) && !Names(es, n)
  {
    if items != [] {
      AppendedNames(es, items[1..], n);
      IsInNames(items[0], es);
      assert items == [items[0]] + items[1..];
      NamesSplit([items[0]], items[1..], n);
      NamesOne(items[0], n);
      NamesSplit(if IsIn(items[0], es).NoMatch? then [items[0]] else [], Appended(es, items[1..], false), n);
    }
  }

  lemma UniqueRev(es: seq<Entry>)
    ensures Unique(Rev(es)) <==> Unique(es)
  {
    var r := Rev(es);
    if Unique(r) {
      forall i, j | 0 <= i < j < |es| ensures Normal(es[i]) != Normal(es[j]) {
        assert r[|es| - 1 - j] == es[j] && r[|es| - 1 - i] == es[i];
      }
    }
  }

  lemma NamesRev(es: seq<Entry>, n: Norm)
    ensures Names(Rev(es), n) <==> Names(es, n)
  {
    if i :| 0 <= i < |es| && Normal(es[i]) == n { assert Rev(es)[|es| - 1 - i] == es[i]; }
  }

  /** Putting two name-disjoint lists together, in either of the two ways a list addition does. */
  lemma Together(rest: seq<Entry>, tmp: seq<Entry>)
    requires Unique(rest) && forall n :: !(Names(rest, n) && Names(tmp, n))
    ensures Unique(rest + tmp) <==> Unique(tmp)
    ensures Unique(Rev(tmp) + rest) <==> Unique(tmp)
  {
    UniqueRev(tmp);
    forall n ensures Names(Rev(tmp), n) <==> Names(tmp, n) { NamesRev(tmp, n); }
    UniqueSplit(rest, tmp);
    UniqueSplit(Rev(tmp), rest);
  }

  /** What the check of a whole list leaves and appends. */
  lemma CheckListNames(es: seq<Entry>, items: seq<Entry>, mode: Mode)
    requires Unique(es) && AllTruthy(es) && AllTruthy(items) && mode.unique
    ensures var (rest, tmp) := CheckList(es, items, mode);
            && tmp == Appended(es, items, mode.deleteExisting) && Unique(rest)
            && (forall n :: !(Names(rest, n) && Names(tmp, n)))
            && (forall n :: Names(rest, n) || Names(tmp, n) <==> Names(es, n) || Names(items, n))
  {
    if mode.deleteExisting {
      CheckListDelete(es, items, mode);
      AllAppended(es, items);
    } else {
      CheckListKeep(es, items, mode);
      forall n ensures Names(Appended(es, items, false), n) <==> Names(items, n) && !Names(es, n) {
        AppendedNames(es, items, n);
      }
    }
  }

  /** A unique list addition leaves a deque without repetitions exactly when the items it appends do
      not repeat each other: they are compared with the deque but not among themselves. */
  lemma AddListUniqueExactly(es: seq<Entry>, items: seq<Entry>, mode: Mode)
    requires Unique(es) && AllTruthy(es) && AllTruthy(items) && mode.unique
    ensures Unique(AddList(es, items, mode)) <==> Unique(Appended(es, items, mode.deleteExisting))
    ensures forall n :: Names(AddList(es, items, mode), n) <==> Names(es, n) || Names(items, n)
  {
    var (rest, tmp) := CheckList(es, items, mode);
    CheckListNames(es, items, mode);
    Together(rest, tmp);
    forall n ensures Names(AddList(es, items, mode), n) <==> Names(rest, n) || Names(tmp, n) {
      NamesSplit(rest, tmp, n);
      NamesSplit(Rev(tmp), rest, n);
      NamesRev(tmp, n);
    }
  }

  // ---- Where a unique addition puts things ----

  function Normals(items: seq<Entry>): seq<Norm> {
    if items == [] then [] else [Normal(items[0])] + Normals(items[1..])
  }

  /** The entries that match none of the items, in order. */
  function Others(es: seq<Entry>, items: seq<Entry>): seq<Entry>
    decreases es
  {
    if es == [] then [] else (if Normal(es[0]) in Normals(items) then [] else [es[0]]) + Others(es[1..], items)
  }

  lemma {:induction false} OthersSplit(a: seq<Entry>, b: seq<Entry>, items: seq<Entry>)
    ensures Others(a + b, items) == Others(a, items) + Others(b, items)
    decreases a
  {
    if a == [] {
      assert a + b == b;
    } else {
      assert (a + b)[1..] == a[1..] + b;
      OthersSplit(a[1..], b, items);
    }
  }

  lemma {:induction false} OthersAll(es: seq<Entry>, item: Entry)
    requires forall i | 0 <= i < |es| :: Normal(es[i]) != Normal(item)
    ensures Others(es, [item]) == es
    decreases es
  {
    if es != [] {
      forall i | 0 <= i < |es[1..]| ensures Normal(es[1..][i]) != Normal(item) { assert es[1..][i] == es[i + 1]; }
      OthersAll(es[1..], item);
      assert Normals([item]) == [Normal(item)] by { assert [item][1..] == []; }
      assert es == [es[0]] + es[1..];
    }
  }

  lemma {:induction false} OthersTwice(es: seq<Entry>, x: Entry, items: seq<Entry>)
    ensures Others(Others(es, [x]), items) == Others(es, [x] + items)
    decreases es
  {
    if es != [] {
      OthersTwice(es[1..], x, items);
      assert Normals([x]) == [Normal(x)] by { assert [x][1..] == []; }
      assert ([x] + items)[1..] == items;
      OthersSplit(if Normal(es[0]) == Normal(x) then [] else [es[0]], Others(es[1..], [x]), items);
      OthersOne(es[0], items);
    }
  }

  lemma OthersOne(e: Entry, items: seq<Entry>)
    ensures Others([e], items) == if Normal(e) in Normals(items) then [] else [e]
  {
    assert [e][1..] == [];
  }

  /** Removing the one match the code looks for removes every match. */
  lemma RemoveIsOthers(es: seq<Entry>, i: nat, item: Entry)
    requires i < |es| && Unique(es) && Normal(es[i]) == Normal(item)
    ensures RemoveAt(es, i) == Others(es, [item])
  {
    Around(es, i);
    UniqueAround(es[..i], es[i], es[i + 1..]);
    OthersAround(es[..i], es[i], es[i + 1..], item);
  }

  lemma Around(es: seq<Entry>, i: nat)
    requires i < |es|
    ensures es == (es[..i] + [es[i]]) + es[i + 1..]
  {}

  lemma UniqueAround(a: seq<Entry>, e: Entry, b: seq<Entry>)
    requires Unique((a + [e]) + b)
    ensures forall j | 0 <= j < |a| :: Normal(a[j]) != Normal(e)
    ensures forall j | 0 <= j < |b| :: Normal(b[j]) != Normal(e)
  {
    var s := (a + [e]) + b;
    assert s[|a|] == e;
    forall j | 0 <= j < |a| ensures Normal(a[j]) != Normal(e) { assert s[j] == a[j]; }
    forall j | 0 <= j < |b| ensures Normal(b[j]) != Normal(e) { assert s[|a| + 1 + j] == b[j]; }
  }

  lemma OthersAround(a: seq<Entry>, e: Entry, b: seq<Entry>, item: Entry)
    requires Normal(e) == Normal(item)
    requires forall j | 0 <= j < |a| :: Normal(a[j]) != Normal(item)
    requires forall j | 0 <= j < |b| :: Normal(b[j]) != Normal(item)
    ensures Others((a + [e]) + b, [item]) == a + b
  {
    OthersSplit(a + [e], b, [item]);
    OthersSplit(a, [e], [item]);
    OthersAll(a, item);
    OthersAll(b, item);
    OthersOne(e, [item]);
    assert Normals([item])[0] == Normal(item);
    assert a + [] == a;
  }

  lemma {:induction false} CheckListOthers(es: seq<Entry>, items: seq<Entry>, mode: Mode)
    requires Unique(es) && AllTruthy(es) && AllTruthy(items) && mode.unique && mode.deleteExisting
    ensures CheckList(es, items, mode) == (Others(es, items), items)
    decreases items
  {
    if items == [] {
      OthersNone(es);
    } else {
      var x := items[0];
      TruthyMatch(es, x);
      CheckNames(es, x, true);
      var (rest, add) := Check(es, x, true, true);
      if IsIn(x, es).MatchAt? { RemoveIsOthers(es, IsIn(x, es).i, x); } else { OthersAll(es, x); }
      assert rest == Others(es, [x]) && add;
      CheckListOthers(rest, items[1..], mode);
      OthersTwice(es, x, items[1..]);
      assert items == [x] + items[1..];
    }
  }

  lemma {:induction false} OthersNone(es: seq<Entry>)
    ensures Others(es, []) == es
  {
    if es != [] {
      OthersNone(es[1..]);
      assert es == [es[0]] + es[1..];
    }
  }

  /** A unique list addition either puts the new items behind, or in front and reversed, and leaves the
      rest alone, or first takes away every entry that names one of them.  The order of what stays is
      kept. */
  lemma AddListWhere(es: seq<Entry>, items: seq<Entry>, mode: Mode)
    requires Unique(es) && AllTruthy(es) && AllTruthy(items) && mode.unique
    ensures var stay := if mode.deleteExisting then Others(es, items) else es;
            var added := if mode.deleteExisting then items else Appended(es, items, false);
            AddList(es, items, mode) == if mode.prepend then Rev(added) + stay else stay + added
  {
    if mode.deleteExisting { CheckListOthers(es, items, mode); } else { CheckListKeep(es, items, mode); }
  }

  /** The same for one item of a string, tuple or dictionary. */
  lemma AddOneWhere(es: seq<Entry>, item: Entry, mode: Mode)
    requires Unique(es) && AllTruthy(es) && Truthy(item) && mode.unique
    ensures AddOne(es, item, mode) ==
            (if Names(es, Normal(item)) && !mode.deleteExisting then es
             else if mode.prepend then [item] + Others(es, [item]) else Others(es, [item]) + [item])
  {
    TruthyMatch(es, item);
    IsInNames(item, es);
    var m := IsIn(item, es);
    if m.MatchAt? { RemoveIsOthers(es, m.i, item); } else { OthersAll(es, item); }
  }

  // ---- Tokens after a unique addition ----

  /** An entry that defines one macro and renders. */
  predicate Macro(e: Entry) { MacroEntry(e) && RenderEntry(e).Ok? }

  function Token(e: Entry): (t: string)
    requires Macro(e)
    ensures RenderEntry(e) == Ok([t])
  {
    assert |RenderEntry(e).value| == 1;
    RenderEntry(e).value[0]
  }

  predicate Macros(es: seq<Entry>) { forall i | 0 <= i < |es| :: Macro(es[i]) }

  predicate DistinctTokens(es: seq<Entry>)
    requires Macros(es)
  {
    forall i, j | 0 <= i < j < |es| :: Token(es[i]) != Token(es[j])
  }

  predicate Apart(a: seq<Entry>, b: seq<Entry>)
    requires Macros(a) && Macros(b)
  {
    forall i, j | 0 <= i < |a| && 0 <= j < |b| :: Token(a[i]) != Token(b[j])
  }

  /** They render alike and do not compare equal. */
  predicate Lookalikes(a: Entry, b: Entry)
    requires Macro(a) && Macro(b)
  {
    Token(a) == Token(b) && Normal(a) != Normal(b)
  }

  lemma TokensConcat(a: seq<Entry>, b: seq<Entry>)
    requires Macros(a) && Macros(b)
    ensures Macros(a + b) && (DistinctTokens(a + b) <==> DistinctTokens(a) && DistinctTokens(b) && Apart(a, b))
  {
    var s := a + b;
    forall i | 0 <= i < |s| ensures Macro(s[i]) {
      if i < |a| { assert s[i] == a[i]; } else { assert s[i] == b[i - |a|]; }
    }
    if DistinctTokens(s) {
      forall i, j | 0 <= i < j < |a| ensures Token(a[i]) != Token(a[j]) { assert s[i] == a[i] && s[j] == a[j]; }
      forall i, j | 0 <= i < j < |b| ensures Token(b[i]) != Token(b[j]) {
        assert s[|a| + i] == b[i] && s[|a| + j] == b[j];
      }
      forall i, j | 0 <= i < |a| && 0 <= j < |b| ensures Token(a[i]) != Token(b[j]) {
        assert s[i] == a[i] && s[|a| + j] == b[j];
      }
    }
  }

  lemma TokensRev(es: seq<Entry>)
    requires Macros(es)
    ensures Macros(Rev(es)) && (DistinctTokens(Rev(es)) <==> DistinctTokens(es))
  {
    var r, n := Rev(es), |es| - 1;
    forall i | 0 <= i < |r| ensures Macro(r[i]) { assert r[i] == es[n - i]; }
    if DistinctTokens(r) {
      forall i, j | 0 <= i < j < |es| ensures Token(es[i]) != Token(es[j]) { assert r[n - j] == es[j] && r[n - i] == es[i]; }
    }
    if DistinctTokens(es) {
      forall i, j | 0 <= i < j < |r| ensures Token(r[i]) != Token(r[j]) { assert r[i] == es[n - i] && r[j] == es[n - j]; }
    }
  }

  lemma ApartRev(a: seq<Entry>, b: seq<Entry>)
    requires Macros(a) && Macros(b)
    ensures Macros(Rev(b)) && (Apart(Rev(b), a) <==> Apart(a, b))
  {
    TokensRev(b);
    var r, n := Rev(b), |b| - 1;
    if Apart(r, a) {
      forall i, j | 0 <= i < |a| && 0 <= j < |b| ensures Token(a[i]) != Token(b[j]) { assert r[n - j] == b[j]; }
    }
    if Apart(a, b) {
      forall j, i | 0 <= j < |r| && 0 <= i < |a| ensures Token(r[j]) != Token(a[i]) { assert r[j] == b[n - j]; }
    }
  }

  lemma OneToken(e: Entry)
    requires Macro(e)
    ensures Macros([e]) && DistinctTokens([e])
  {}

  /** New entries put behind or in front. */
  lemma TokensTogether(stay: seq<Entry>, added: seq<Entry>, prepend: bool)
    requires Macros(stay) && Macros(added) && DistinctTokens(stay)
    ensures var after := if prepend then Rev(added) + stay else stay + added;
            Macros(after) && (DistinctTokens(after) <==> DistinctTokens(added) && Apart(stay, added))
  {
    TokensRev(added);
    ApartRev(stay, added);
    TokensConcat(Rev(added), stay);
    TokensConcat(stay, added);
  }

  lemma OthersMembers(es: seq<Entry>, items: seq<Entry>)
    requires Macros(es)
    ensures Macros(Others(es, items))
    ensures forall e :: e in Others(es, items) <==> e in es && Normal(e) !in Normals(items)
    ensures DistinctTokens(es) ==> DistinctTokens(Others(es, items))
    decreases es
  {
    if es != [] {
      var rest := Others(es[1..], items);
      assert Macros(es[1..]) by { assert forall i | 0 <= i < |es[1..]| :: es[1..][i] == es[i + 1]; }
      OthersMembers(es[1..], items);
      assert es == [es[0]] + es[1..];
      OneToken(es[0]);
      TokensConcat([es[0]], es[1..]);
      TokensConcat([es[0]], rest);
      if DistinctTokens(es) { ApartFewer(es[0], es[1..], rest); }
    }
  }

  lemma ApartFewer(e: Entry, es: seq<Entry>, rest: seq<Entry>)
    requires Macro(e) && Macros(es) && Macros(rest) && Macros([e]) && Apart([e], es) && forall x | x in rest :: x in es
    ensures Apart([e], rest)
  {
    forall j | 0 <= j < |rest| ensures Token(e) != Token(rest[j]) {
      assert rest[j] in rest;
      var k :| 0 <= k < |es| && es[k] == rest[j];
      assert [e][0] == e;
    }
  }

  lemma {:induction false} NormalsNames(items: seq<Entry>, n: Norm)
    ensures n in Normals(items) <==> Names(items, n)
  {
    if items != [] {
      NormalsNames(items[1..], n);
      NamesCons(items, n);
    }
  }

  /** After a unique addition of one item the tokens are distinct exactly when the item was left out, or
      every entry that renders like it was found to match it and taken away. */
  lemma AddOneTokensExactly(es: seq<Entry>, item: Entry, mode: Mode)
    requires mode.unique && Unique(es) && Macros(es) && Macro(item) && DistinctTokens(es)
    ensures var m := IsIn(item, es);
            && Macros(AddOne(es, item, mode))
            && (DistinctTokens(AddOne(es, item, mode)) <==>
                || (m.MatchAt? && m.truthy && !mode.deleteExisting)
                || forall e | e in es && Token(e) == Token(item) :: !Lookalikes(e, item) && m.MatchAt? && m.truthy)
  {
    var m := IsIn(item, es);
    if m.MatchAt? && m.truthy && mode.deleteExisting {
      RemoveIsOthers(es, m.i, item);
      ReplacedTokens(es, item, mode.prepend);
    } else if !(m.MatchAt? && m.truthy) {
      AddedTokens(es, item, mode.prepend);
    }
  }

  lemma AddedTokens(es: seq<Entry>, item: Entry, prepend: bool)
    requires Macros(es) && Macro(item) && DistinctTokens(es)
    ensures var after := if prepend then [item] + es else es + [item];
            Macros(after) && (DistinctTokens(after) <==> forall e | e in es :: Token(e) != Token(item))
  {
    OneToken(item);
    assert Rev([item]) == [item];
    TokensTogether(es, [item], prepend);
    ApartExactly(es, [item]);
  }

  lemma ReplacedTokens(es: seq<Entry>, item: Entry, prepend: bool)
    requires Macros(es) && Macro(item) && DistinctTokens(es)
    ensures var stay := Others(es, [item]);
            var after := if prepend then [item] + stay else stay + [item];
            Macros(after) && (DistinctTokens(after) <==> forall e | e in es && Token(e) == Token(item) :: !Lookalikes(e, item))
  {
    OthersMembers(es, [item]);
    AddedTokens(Others(es, [item]), item, prepend);
    assert Normals([item]) == [Normal(item)] by { assert [item][1..] == []; }
  }

  lemma ApartExactly(es: seq<Entry>, items: seq<Entry>)
    requires Macros(es) && Macros(items)
    ensures Apart(es, items) <==> forall e, x | e in es && x in items :: Token(e) != Token(x)
  {
    if Apart(es, items) {
      forall e, x | e in es && x in items ensures Token(e) != Token(x) {
        var i :| 0 <= i < |es| && es[i] == e;
        var j :| 0 <= j < |items| && items[j] == x;
      }
    }
  }

  /** What stays is apart from the items exactly when whatever renders like one of them matches one. */
  lemma ApartOthers(es: seq<Entry>, items: seq<Entry>)
    requires Macros(es) && Macros(items)
    ensures Macros(Others(es, items))
    ensures Apart(Others(es, items), items) <==>
            forall e, x | e in es && x in items && Token(e) == Token(x) :: Names(items, Normal(e))
  {
    OthersMembers(es, items);
    ApartExactly(Others(es, items), items);
    forall e | e in es ensures Normal(e) in Normals(items) <==> Names(items, Normal(e)) { NormalsNames(items, Normal(e)); }
  }

  /** After a unique addition of a list the tokens are distinct exactly when those of the items it adds
      are, and every entry that renders like one of them matches one of them. */
  lemma AddListTokensExactly(es: seq<Entry>, items: seq<Entry>, mode: Mode)
    requires mode.unique && Unique(es) && AllTruthy(es) && AllTruthy(items)
    requires Macros(es) && Macros(items) && DistinctTokens(es)
    ensures var added := Appended(es, items, mode.deleteExisting);
            && Macros(added) && Macros(AddList(es, items, mode))
            && (DistinctTokens(AddList(es, items, mode)) <==>
                && DistinctTokens(added)
                && forall e, x | e in es && x in added && Token(e) == Token(x) :: Names(added, Normal(e)))
  {
    var added := Appended(es, items, mode.deleteExisting);
    AppendedMacros(es, items, mode.deleteExisting);
    AddListWhere(es, items, mode);
    if mode.deleteExisting {
      AllAppended(es, items);
      OthersMembers(es, items);
      ApartOthers(es, items);
      TokensTogether(Others(es, items), items, mode.prepend);
    } else {
      TokensTogether(es, added, mode.prepend);
      ApartExactly(es, added);
      forall e | e in es ensures !Names(added, Normal(e)) {
        AppendedNames(es, items, Normal(e));
        var i :| 0 <= i < |es| && es[i] == e;
      }
    }
  }

  lemma {:induction false} AppendedMacros(es: seq<Entry>, items: seq<Entry>, deleteExisting: bool)
    requires Macros(items)
    ensures Macros(Appended(es, items, deleteExisting))
    decreases items
  {
    if items != [] {
      assert Macros(items[1..]) by { assert forall i | 0 <= i < |items[1..]| :: items[1..][i] == items[i + 1]; }
      AppendedMacros(es, items[1..], deleteExisting);
    }
  }

  lemma AddOneMembers(es: seq<Entry>, item: Entry, mode: Mode)
    ensures forall e | e in AddOne(es, item, mode) :: e in es || e == item
  {
    var m := if mode.unique then IsIn(item, es) else NoMatch;
    if m.MatchAt? { assert forall e | e in RemoveAt(es, m.i) :: e in es; }
  }

  lemma {:induction false} AddEachMembers(es: seq<Entry>, items: seq<Entry>, mode: Mode)
    ensures forall e | e in AddEach(es, items, mode) :: e in es || e in items
    decreases items
  {
    if items != [] {
      AddOneMembers(es, items[0], mode);
      AddEachMembers(AddOne(es, items[0], mode), items[1..], mode);
      assert items == [items[0]] + items[1..];
    }
  }

  /** For a string, tuple or dictionary of several macros: as long as no two of the entries and items
      look alike without being equal, the tokens stay distinct. */
  lemma AddEachTokens(es: seq<Entry>, items: seq<Entry>, mode: Mode)
    requires mode.unique && Unique(es) && AllTruthy(es) && AllTruthy(items)
    requires forall e | e in es + items :: Macro(e)
    requires forall e, x | e in es + items && x in es + items :: !Lookalikes(e, x)
    ensures Macros(AddEach(es, items, mode)) && DistinctTokens(AddEach(es, items, mode))
  {
    var after := AddEach(es, items, mode);
    AddEachUnique(es, items, mode);
    AddEachMembers(es, items, mode);
    forall i | 0 <= i < |after| ensures after[i] in es + items && Macro(after[i]) { assert after[i] in after; }
    forall i, j | 0 <= i < j < |after| ensures Token(after[i]) != Token(after[j]) {
      assert !Lookalikes(after[i], after[j]);
    }
  }

  // ---- Ways to repeat a macro all the same ----

  /** The items of one list are not compared with each other. */
  lemma ListCanRepeat(x: Entry)
    requires Truthy(x)
    ensures !Unique(AddList([], [x, x], Mode(false, true, false)))
  {
    AddListUniqueExactly([], [x, x], Mode(false, true, false));
    var added := Appended([], [x, x], false);
    assert [x, x][1..] == [x] && [x][1..] == [];
    assert IsIn(x, []).NoMatch?;
    assert Appended([], [x], false) == [x];
    assert added == [x, x];
    assert added[0] == added[1];
  }

  /** An entry that Python takes for false is found and then treated as if it had not been. */
  lemma FalsyCanRepeat(x: Entry, mode: Mode)
    requires !Truthy(x) && mode.unique
    ensures !Unique(AddOne([x], x, mode))
  {
    assert [x][0] == x && PyEq(x, x);
    var m := IsIn(x, [x]);
    assert m.MatchAt? && !m.truthy;
    assert AddOne([x], x, mode) == [x, x];
    assert [x, x][0] == [x, x][1];
  }

  /** Two definitions in forms that render alike but do not compare equal both stay, in either order and
      whether or not existing entries are to be deleted.  `Defines.SameTokenMatchesExactly` says when
      that is. */
  lemma TwoFormsCanRepeat(a: Entry, b: Entry, mode: Mode)
    requires mode.unique && Macro(a) && Macro(b) && Lookalikes(a, b)
    ensures var after := AddOne([a], b, mode);
            Unique(after) && RenderAll(after) == Ok([Token(a), Token(a)])
  {
    assert [a][0] == a;
    assert IsIn(b, [a]).NoMatch?;
    assert [a] + [b] == [a, b] && [b] + [a] == [b, a];
    RenderTwo(a, b, Token(a));
    RenderTwo(b, a, Token(a));
  }

  /** Among them are the documented forms "A=1" and {"A": 1}, and "A" and a tuple with one element. */
  lemma NumbersAndSinglesLookAlike(name: string, value: int, text: string)
    ensures var s, p := EStr(name + "=" + text), ETuple([AStr(name), AScalar(value, text)]);
            Macro(s) && Macro(p) && Lookalikes(s, p)
    ensures var s, p := EStr(name), ETuple([AStr(name)]);
            Macro(s) && Macro(p) && Lookalikes(s, p)
  {
    StringMatchesExactly(name + "=" + text, [AStr(name), AScalar(value, text)]);
    StringMatchesExactly(name, [AStr(name)]);
  }

  /** And the other way round: a definition that differs only in the text of a number is taken for one
      that is there, and dropped. */
  lemma EqualNumbersAreDropped()
    ensures var one, true_ := ETuple([AStr("A"), AScalar(1, "1")]), ETuple([AStr("A"), AScalar(1, "True")]);
            AddOne([one], true_, Mode(false, true, false)) == [one] && RenderEntry(one) != RenderEntry(true_)
  {
    var one, true_ := ETuple([AStr("A"), AScalar(1, "1")]), ETuple([AStr("A"), AScalar(1, "True")]);
    EqualNumbersRenderDifferently();
    assert ["A=1"][0] != ["A=True"][0] by { assert |"A=1"| != |"A=True"|; }
    assert [one][0] == one;
    assert IsIn(true_, [one]) == MatchAt(0, true);
  }

  lemma RenderTwo(s: Entry, p: Entry, t: string)
    requires RenderEntry(s) == Ok([t]) && RenderEntry(p) == Ok([t])
    ensures RenderAll([s, p]) == Ok([t, t])
  {
    RenderOne(s);
    RenderSnoc([s], p);
    assert [s] + [p] == [s, p] && [t] + [t] == [t, t];
  }

  // ---- The whole value ----

  /** The entries a value adds. */
  function Items(val: Form): seq<Entry> {
    match val
    case FDict(items) => TuplesOf(items)
    case FStr(s) => EntriesOf(Words(s))
    case FTuple(xs) => [ETuple(if |xs| == 1 then [xs[0], ANone] else xs)]
    case FList(es) => es
    case FDeque(es) => es
    case FOther(_, _) => []
  }

  predicate Listed(val: Form) { val.FList? || val.FDeque? }

  /** A unique addition to CPPDEFINES without repetitions, whatever the form of the addition: the names
      afterwards are the old ones and the new ones, and none is repeated, unless the addition is a list
      and two of the items appended name the same macro and value. */
  lemma AddUniqueExactly(defines: seq<Entry>, val: Form, mode: Mode)
    requires mode.unique && Unique(defines) && AllTruthy(defines) && (Listed(val) ==> AllTruthy(Items(val)))
    requires AddToDeque(defines, val, mode).1.None?
    ensures var after := AddToDeque(defines, val, mode).0;
            && (Unique(after) <==> (Listed(val) ==> Unique(Appended(defines, Items(val), mode.deleteExisting))))
            && forall n :: Names(after, n) <==> Names(defines, n) || Names(Items(val), n)
  {
    var items := Items(val);
    match val {
      case FDict(_) => AddEachUnique(defines, items, mode);
      case FStr(_) => AddEachUnique(defines, items, mode);
      case FTuple(_) =>
        AddOneUniqueExactly(defines, items[0], mode);
        TruthyMatch(defines, items[0]);
        forall n ensures Names(items, n) <==> n == Normal(items[0]) { NamesOne(items[0], n); }
      case FList(_) => AddListUniqueExactly(defines, items, mode);
      case FDeque(_) => AddListUniqueExactly(defines, items, mode);
      case FOther(_, _) =>
    }
  }

  lemma {:induction false} AddEachPlain(defines: seq<Entry>, items: seq<Entry>, mode: Mode)
    requires !mode.unique
    ensures AddEach(defines, items, mode) == if mode.prepend then Rev(items) + defines else defines + items
    decreases items
  {
    if items == [] {
      assert Rev(items) + defines == defines && defines + items == defines;
    } else {
      AddOnePlain(defines, items[0], mode);
      AddEachPlain(AddOne(defines, items[0], mode), items[1..], mode);
      RevCons(items);
      if mode.prepend {
        Regroup(Rev(items[1..]), [items[0]], defines);
      } else {
        Regroup(defines, [items[0]], items[1..]);
      }
    }
  }

  lemma RevCons(items: seq<Entry>)
    requires items != []
    ensures Rev(items) == Rev(items[1..]) + [items[0]] && items == [items[0]] + items[1..]
  {}

  lemma Regroup(a: seq<Entry>, b: seq<Entry>, c: seq<Entry>)
    ensures a + (b + c) == (a + b) + c
  {}

  lemma AddOnePlain(defines: seq<Entry>, item: Entry, mode: Mode)
    requires !mode.unique
    ensures AddOne(defines, item, mode) == if mode.prepend then [item] + defines else defines + [item]
  {}

  lemma {:induction false} CheckListPlain(defines: seq<Entry>, items: seq<Entry>, mode: Mode)
    requires !mode.unique
    ensures CheckList(defines, items, mode) == (defines, items)
    decreases items
  {
    if items != [] {
      CheckListPlain(defines, items[1..], mode);
      assert items == [items[0]] + items[1..];
    }
  }

  /** An addition without uniqueness puts the new entries behind, or in front and reversed. */
  lemma AddPlain(defines: seq<Entry>, val: Form, mode: Mode)
    requires !mode.unique && AddToDeque(defines, val, mode).1.None?
    ensures AddToDeque(defines, val, mode).0 == if mode.prepend then Rev(Items(val)) + defines else defines + Items(val)
  {
    var items := Items(val);
    match val {
      case FDict(_) => AddEachPlain(defines, items, mode);
      case FStr(_) => AddEachPlain(defines, items, mode);
      case FTuple(_) => AddEachPlain(defines, items, mode); assert items[1..] == [];
      case FList(_) => CheckListPlain(defines, items, mode);
      case FDeque(_) => CheckListPlain(defines, items, mode);
      case FOther(_, _) => assert Rev(items) + defines == defines && defines + items == defines;
    }
  }

  // ---- Appending commutes with rendering ----

  lemma {:induction false} RenderFlatten(es: seq<Entry>)
    ensures RenderAll(es).Ok? ==> RenderAll(Flatten(es)) == RenderAll(es)
  {
    if es != [] {
      var head := Unpacked(es[0]);
      assert es == [es[0]] + es[1..];
      RenderFlatten(es[1..]);
      RenderConcat([es[0]], es[1..]);
      RenderConcat(head, Flatten(es[1..]));
      RenderOne(es[0]);
      if es[0].EDict? { RenderTuples(es[0].items); }
    }
  }

  lemma RenderOne(e: Entry)
    ensures RenderAll([e]) == RenderEntry(e)
  {
    RenderSnoc([], e);
    assert [] + [e] == [e];
    if RenderEntry(e).Ok? { assert [] + RenderEntry(e).value == RenderEntry(e).value; }
  }

  /** Converting an old value of a documented form to a deque does not change how it renders. */
  lemma RenderDeque(f: Form)
    requires Render(f).Ok? && ToDeque(f).Ok?
    ensures !f.FOther? ==> RenderAll(ToDeque(f).value) == Render(f)
  {
    match f {
      case FDeque(_) =>
      case FStr(s) => RenderWords(Words(s));
      case FTuple(xs) => RenderOne(ETuple(xs));
      case FList(es) => RenderFlatten(es);
      case FDict(items) => RenderTuples(items);
      case FOther(_, _) =>
    }
  }

  lemma RenderItemsOf(val: Form)
    requires Render(val).Ok? && !val.FOther?
    ensures RenderAll(Items(val)) == Render(val)
  {
    match val {
      case FStr(s) => RenderWords(Words(s));
      case FTuple(xs) => RenderOne(ETuple(xs));
      case FDict(items) => RenderTuples(items);
      case _ =>
    }
  }

  lemma AppendToDeque(defines: seq<Entry>, val: Form, mode: Mode)
    requires !mode.unique && !mode.prepend && RenderAll(defines).Ok? && Render(val).Ok?
    ensures var (after, error) := AddToDeque(defines, val, mode);
            && (error.None? <==> val.FTuple? ==> Scalar(val.xs[0]) && Scalar(val.xs[1]))
            && (error.None? ==> after == defines + Items(val))
            && (error.None? && !val.FOther? ==> RenderAll(after) == Ok(RenderAll(defines).value + Render(val).value))
  {
    if AddToDeque(defines, val, mode).1.None? {
      AddPlain(defines, val, mode);
      RenderConcat(defines, Items(val));
      if !val.FOther? { RenderItemsOf(val); }
    }
  }

  /** A container outside the documented forms renders as its text before, and as its elements after it
      is converted: the two must happen to agree, counting a value of unknown type that is dropped. */
  predicate LuckyElements(f: Form, val: Form)
    requires f.FOther?
  {
    f.elements.Some? && RenderAll(f.elements.value) == Ok([f.text] + (if val.FOther? then [val.text] else []))
  }

  /** Appending a value and then rendering gives the old tokens followed by the tokens of the value,
      exactly when neither is outside the documented forms, luck aside, and a tuple added has scalar
      parts. */
  lemma AppendCommutesExactly(f: Form, val: Form, mode: Mode)
    requires !mode.unique && !mode.prepend && Render(f).Ok? && Render(val).Ok?
    ensures var o := AddDefines(Some(f), val, mode);
            && o.form.Some?
            && (o.error.None? && Render(o.form.value) == Ok(Render(f).value + Render(val).value) <==>
                (if f.FOther? then LuckyElements(f, val) else !val.FOther?) &&
                (val.FTuple? ==> Scalar(val.xs[0]) && Scalar(val.xs[1])))
  {
    if ToDeque(f).Ok? {
      var defines := ToDeque(f).value;
      RenderDeque(f);
      var (after, error) := AddToDeque(defines, val, mode);
      assert AddDefines(Some(f), val, mode) == Outcome(Some(FDeque(after)), error);
      if RenderAll(defines).Ok? {
        AppendToDeque(defines, val, mode);
        AppendedTokens(f, val, RenderAll(defines).value);
        if val.FOther? { assert defines + [] == defines; }
      } else if error.None? {
        AddPlain(defines, val, mode);
        RenderConcat(defines, Items(val));
      }
    }
  }

  lemma AppendedTokens(f: Form, val: Form, tokens: seq<string>)
    requires Render(f).Ok? && Render(val).Ok?
    requires !f.FOther? ==> tokens == Render(f).value
    ensures tokens + (if val.FOther? then [] else Render(val).value) == Render(f).value + Render(val).value <==>
            if f.FOther? then tokens == [f.text] + (if val.FOther? then [val.text] else []) else !val.FOther?
  {
    var a, b := Render(f).value, Render(val).value;
    if val.FOther? {
      assert tokens + [] == tokens;
      assert |b| == 1;
    } else if tokens + b == a + b {
      assert tokens == (tokens + b)[..|tokens|] && a == (a + b)[..|a|];
    }
    if f.FOther? { assert [f.text] + [] == [f.text]; }
  }

  /** When adding raises an exception, and what it leaves: an old value that cannot be converted stays; an
      added tuple of the wrong length, or with parts that are not scalar, leaves the converted old value. */
  lemma AddFailsExactly(f: Form, val: Form, mode: Mode, error: Error)
    ensures var o := AddDefines(Some(f), val, mode);
            var torn := (f.FTuple? && |f.xs| > 2 && error == UserError) || (f.FOther? && f.elements.None? && error == TypeError);
            var refused := val.FTuple? && if val.xs == [] then error == IndexError
                                          else error == UserError && (|val.xs| > 2 || exists x :: x in val.xs && !Scalar(x));
            && (o.error == Some(error) <==> torn || (ToDeque(f).Ok? && refused))
            && (torn ==> o.form == Some(f))
            && (ToDeque(f).Ok? && refused ==> o.form == Some(FDeque(ToDeque(f).value)))
  {
    if val.FTuple? && 1 <= |val.xs| <= 2 {
      if x :| x in val.xs && !Scalar(x) { assert x == val.xs[0] || x == val.xs[|val.xs| - 1]; }
      assert val.xs[0] in val.xs && val.xs[|val.xs| - 1] in val.xs;
    }
  }

  /** The first value is stored as it is, a string as the list of its words, and renders as it would on its
      own, errors included. */
  lemma FirstValueRenders(val: Form, mode: Mode)
    ensures var o := AddDefines(None, val, mode);
            && o.error.None? && o.form.Some? && Render(o.form.value) == Render(val)
            && if val.FStr? then o.form.value == FList(EntriesOf(Words(val.s))) else o.form.value == val
  {
    if val.FStr? { RenderWords(Words(val.s)); }
  }

  // ---- The code ----

  lemma {:induction false} FlattenSnoc(es: seq<Entry>, e: Entry)
    ensures Flatten(es + [e]) == Flatten(es) + Unpacked(e)
  {
    if es == [] {
      assert [] + [e] == [e] && [e][1..] == [] && Unpacked(e) + [] == Unpacked(e) && [] + Unpacked(e) == Unpacked(e);
    } else {
      assert (es + [e])[1..] == es[1..] + [e];
      FlattenSnoc(es[1..], e);
      Regroup(Unpacked(es[0]), Flatten(es[1..]), Unpacked(e));
    }
  }

  method Find(item: Entry, defines: seq<Entry>) returns (m: Match)
    ensures m == IsIn(item, defines)
  {
    var i := 0;
    while i < |defines|
      invariant 0 <= i <= |defines| && forall k | 0 <= k < i :: !PyEq(defines[k], item)
    {
      if PyEq(defines[i], item) {
        return MatchAt(i, Truthy(item));
      }
      i := i + 1;
    }
    i := 0;
    while i < |defines|
      invariant 0 <= i <= |defines| && forall k | 0 <= k < i :: Normal(defines[k]) != Normal(item)
    {
      if Normal(defines[i]) == Normal(item) {
        return MatchAt(i, Truthy(defines[i]));
      }
      i := i + 1;
    }
    return NoMatch;
  }

  /** The dictionary of a construction environment, as far as CPPDEFINES goes. */
  class DefinesEnv {
    var cppdefines: Option<Form>

    constructor (initial: Option<Form>)
      ensures cppdefines == initial
    { cppdefines := initial; }

    /** `_add_cppdefines`. */
    method Add(val: Form, mode: Mode) returns (error: Option<Error>)
      modifies this
      ensures Outcome(cppdefines, error) == AddDefines(old(cppdefines), val, mode)
    {
      match cppdefines {
        case None =>
          if val.FStr? { cppdefines := Some(FList(EntriesOf(Words(val.s)))); } else { cppdefines := Some(val); }
          return None;
        case Some(f) =>
          var converted := Convert(f);
          if converted.Err? { return Some(converted.error); }
          var defines := converted.value;
          cppdefines := Some(FDeque(defines));
          match val {
            case FDict(items) => defines := AddLoop(defines, TuplesOf(items), mode);
            case FStr(s) => defines := AddLoop(defines, EntriesOf(Words(s)), mode);
            case FTuple(xs) =>
              if |xs| > 2 { return Some(UserError); }
              if |xs| == 0 { return Some(IndexError); }
              var pair := if |xs| == 1 then [xs[0], ANone] else xs;
              if !Scalar(pair[0]) || !Scalar(pair[1]) { return Some(UserError); }
              assert [ETuple(pair)][1..] == [];
              defines := AddLoop(defines, [ETuple(pair)], mode);
            case FList(es) => defines := AddListLoop(defines, es, mode);
            case FDeque(es) => defines := AddListLoop(defines, es, mode);
            case FOther(_, _) =>
          }
          cppdefines := Some(FDeque(defines));
          return None;
      }
    }

    static method Convert(f: Form) returns (r: Result<seq<Entry>, Error>)
      ensures r == ToDeque(f)
    {
      match f {
        case FDeque(es) => r := Ok(es);
        case FStr(s) => r := Ok(EntriesOf(Words(s)));
        case FTuple(xs) => if |xs| > 2 { r := Err(UserError); } else { r := Ok([ETuple(xs)]); }
        case FDict(items) => r := Ok(TuplesOf(items));
        case FOther(_, elements) => if elements.Some? { r := Ok(elements.value); } else { r := Err(TypeError); }
        case FList(es) => var entries := FlattenLoop(es); r := Ok(entries);
      }
    }

    static method FlattenLoop(es: seq<Entry>) returns (result: seq<Entry>)
      ensures result == Flatten(es)
    {
      result := [];
      var i := 0;
      assert es[..0] == [];
      while i < |es|
        invariant 0 <= i <= |es| && result == Flatten(es[..i])
      {
        assert es[..i + 1] == es[..i] + [es[i]];
        FlattenSnoc(es[..i], es[i]);
        match es[i] {
          case EDict(items) => result := result + TuplesOf(items);
          case _ => result := result + [es[i]];
        }
        i := i + 1;
      }
      assert es[..i] == es;
    }

    static method CheckOne(before: seq<Entry>, item: Entry, mode: Mode) returns (defines: seq<Entry>, add: bool)
      ensures (defines, add) == Check(before, item, mode.unique, mode.deleteExisting)
    {
      defines, add := before, true;
      if mode.unique {
        var m := Find(item, defines);
        if m.MatchAt? && m.truthy {
          if mode.deleteExisting { defines := RemoveAt(defines, m.i); } else { add := false; }
        }
      }
    }

    static method AddLoop(before: seq<Entry>, items: seq<Entry>, mode: Mode) returns (defines: seq<Entry>)
      ensures defines == AddEach(before, items, mode)
    {
      defines := before;
      var i := 0;
      assert items[0..] == items;
      while i < |items|
        invariant 0 <= i <= |items| && AddEach(defines, items[i..], mode) == AddEach(before, items, mode)
      {
        var item := items[i];
        assert items[i..][1..] == items[i + 1..];
        var add;
        defines, add := CheckOne(defines, item, mode);
        if add {
          defines := if mode.prepend then [item] + defines else defines + [item];
        }
        i := i + 1;
      }
    }

    static method AddListLoop(before: seq<Entry>, items: seq<Entry>, mode: Mode) returns (defines: seq<Entry>)
      ensures defines == AddList(before, items, mode)
    {
      defines := before;
      var tmp: seq<Entry> := [];
      var i := 0;
      assert items[0..] == items && [] + CheckList(before, items, mode).1 == CheckList(before, items, mode).1;
      while i < |items|
        invariant 0 <= i <= |items|
        invariant var (rest, more) := CheckList(defines, items[i..], mode);
                  CheckList(before, items, mode) == (rest, tmp + more)
      {
        var item := items[i];
        assert items[i..][1..] == items[i + 1..];
        var add;
        defines, add := CheckOne(defines, item, mode);
        ghost var more := CheckList(defines, items[i + 1..], mode).1;
        assert [] + more == more;
        Regroup(tmp, [item], more);
        if add { tmp := tmp + [item]; }
        i := i + 1;
      }
      assert items[i..] == [] && tmp + [] == tmp;
      defines := if mode.prepend then Rev(tmp) + defines else defines + tmp;
    }
  }
}
