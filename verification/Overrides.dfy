/** Override environments as values: what the dictionary methods of `OverrideEnvironment` compute
    through any number of nested layers, and when they agree with one flat dictionary.

    A layer holds the overriding values and the list of deleted keys ("tombstones").  The functions
    follow the source method by method; `OverrideEnv` has the same operations on objects that share
    their subjects, and ties them to these functions. */
module Overrides {
  import opened Std

  type Key = string

  /** A Python object, by identity. */
  type Value = nat

  type Dict = map<Key, Value>

  datatype Layer = Layer(over: Dict, deleted: seq<Key>)

  datatype Env = Base(dict: Dict) | Override(subject: Env, layer: Layer)

  datatype Error = KeyError | IllegalKey

  // ---- The readers ----

  /** `__getitem__` and `get`: the override first, then the tombstones, then the subject. */
  function Lookup(e: Env, k: Key): Option<Value> {
    match e
    case Base(dict) => if k in dict then Some(dict[k]) else None
    case Override(subject, layer) =>
      if k in layer.over then Some(layer.over[k])
      else if k in layer.deleted then None
      else Lookup(subject, k)
  }

  /** `__contains__`. */
  predicate Contains(e: Env, k: Key) {
    match e
    case Base(dict) => k in dict
    case Override(subject, layer) => k in layer.over || (k !in layer.deleted && Contains(subject, k))
  }

  /** `Dictionary`: the subject's keys with the subject's values, updated with the override, without
      the tombstones.  Reading the subject never raises `KeyError`. */
  function Dictionary(e: Env): (d: Dict)
    ensures forall k | k in d :: Lookup(e, k) == Some(d[k])
  {
    match e
    case Base(dict) => dict
    case Override(subject, layer) =>
      var below := Dictionary(subject);
      var d := (map k | k in below :: Lookup(subject, k).value) + layer.over;
      map k | k in d && k !in layer.deleted :: d[k]
  }

  function GlobalVars(e: Env): Dict {
    match e
    case Base(dict) => dict
    case Override(subject, _) => GlobalVars(subject)
  }

  function LocalVars(e: Env): Dict {
    match e
    case Base(_) => map[]
    case Override(subject, layer) => LocalVars(subject) + layer.over
  }

  /** What substitution sees: the local variables over the global ones. */
  function SubstView(e: Env): Dict {
    GlobalVars(e) + LocalVars(e)
  }

  function Get(d: Dict, k: Key): Option<Value> {
    if k in d then Some(d[k]) else None
  }

  // ---- The writers ----

  predicate IsLetter(c: char) { 'a' <= c <= 'z' || 'A' <= c <= 'Z' || c == '_' }

  predicate IsIdentifier(s: string) {
    s != "" && IsLetter(s[0]) && forall i | 0 <= i < |s| :: IsLetter(s[i]) || '0' <= s[i] <= '9'
  }

  /** Letters, digits and underscores, and no digit in front. */
  lemma IdentifierExactly(s: string)
    ensures IsIdentifier(s) <==>
            && s != "" && !('0' <= s[0] <= '9')
            && forall c | c in s :: c == '_' || '0' <= c <= '9' || 'a' <= c <= 'z' || 'A' <= c <= 'Z'
  {
    if IsIdentifier(s) {
      forall c | c in s ensures IsLetter(c) || '0' <= c <= '9' { var i :| 0 <= i < |s| && s[i] == c; }
    } else if s != "" && !('0' <= s[0] <= '9') {
      assert s[0] in s;
      if IsLetter(s[0]) {
        var i :| 0 <= i < |s| && !(IsLetter(s[i]) || '0' <= s[i] <= '9');
        assert s[i] in s;
      }
    }
  }

  const RESERVED: set<Key> :=
    {"CHANGED_SOURCES", "CHANGED_TARGETS", "SOURCE", "SOURCES", "TARGET", "TARGETS", "UNCHANGED_SOURCES",
     "UNCHANGED_TARGETS"}

  function RemoveFirst(s: seq<Key>, k: Key): (r: seq<Key>)
    ensures k !in s ==> r == s
    ensures k in s ==> multiset(r) == multiset(s) - multiset{k}
  {
    if s == [] then []
    else if s[0] == k then assert s == [k] + s[1..]; s[1..]
    else assert s == [s[0]] + s[1..]; [s[0]] + RemoveFirst(s[1..], k)
  }

  /** An operation's error, if any, and the environment afterwards. */
  datatype Outcome = Outcome(env: Env, error: Option<Error>)

  function SetItem(e: Env, k: Key, v: Value): Outcome {
    match e
    case Base(dict) =>
      if k in RESERVED then Outcome(e, None)
      else if k !in dict && !IsIdentifier(k) then Outcome(e, Some(IllegalKey))
      else Outcome(Base(dict[k := v]), None)
    case Override(subject, layer) =>
      if !IsIdentifier(k) then Outcome(e, Some(IllegalKey))
      else Outcome(Override(subject, Layer(layer.over[k := v], RemoveFirst(layer.deleted, k))), None)
  }

  function DelItem(e: Env, k: Key): Outcome {
    match e
    case Base(dict) =>
      if k in dict then Outcome(Base(dict - {k}), None) else Outcome(e, Some(KeyError))
    case Override(subject, layer) =>
      if k !in layer.over && !Contains(subject, k) then Outcome(e, Some(KeyError))
      else Outcome(Override(subject, Layer(layer.over - {k}, layer.deleted + [k])), None)
  }

  /** `_update`, and `Replace` once the reserved names are dropped. */
  function Update(e: Env, other: Dict): Env {
    match e
    case Base(dict) => Base(dict + other)
    case Override(subject, layer) => Override(subject, layer.(over := layer.over + other))
  }

  function NotReserved(d: Dict): Dict { d - RESERVED }

  function UpdateOnlyNew(e: Env, other: Dict): Env {
    match e
    case Base(dict) => Base(other + dict)
    case Override(subject, layer) => Override(subject, layer.(over := other + layer.over))
  }

  function SetDefault(e: Env, k: Key, v: Value): Env {
    if Lookup(e, k).Some? then e
    else match e
         case Base(dict) => Base(dict[k := v])
         case Override(subject, layer) => Override(subject, layer.(over := layer.over[k := v]))
  }

  /** A base environment is a dictionary: what every operation leaves under every key. */
  lemma BaseIsDictionary(d: Dict, k: Key, v: Value, other: Dict, j: Key)
    ensures var o := SetItem(Base(d), k, v);
            var reserved := k in {"CHANGED_SOURCES", "CHANGED_TARGETS", "SOURCE", "SOURCES", "TARGET", "TARGETS",
                                  "UNCHANGED_SOURCES", "UNCHANGED_TARGETS"};
            && (o.error == Some(IllegalKey) <==> !reserved && k !in d && !IsIdentifier(k)) && (o.error != None ==> o.error == Some(IllegalKey))
            && Lookup(o.env, j) == if j == k && !reserved && o.error == None then Some(v) else Get(d, j)
    ensures var o := DelItem(Base(d), k);
            o.error == (if k in d then None else Some(KeyError)) && Lookup(o.env, j) == if j == k then None else Get(d, j)
    ensures Lookup(Update(Base(d), other), j) == if j in other then Some(other[j]) else Get(d, j)
    ensures Lookup(UpdateOnlyNew(Base(d), other), j) == if j in d then Some(d[j]) else Get(other, j)
    ensures Lookup(SetDefault(Base(d), k, v), j) == if j == k && k !in d then Some(v) else Get(d, j)
  {}

  /** `Replace` with keywords: those that are reserved change nothing. */
  lemma ReplacedExactly(e: Env, kw: Dict, k: Key)
    requires e.Override?
    ensures var reserved := k in {"CHANGED_SOURCES", "CHANGED_TARGETS", "SOURCE", "SOURCES", "TARGET", "TARGETS",
                                  "UNCHANGED_SOURCES", "UNCHANGED_TARGETS"};
            Lookup(Update(e, NotReserved(kw)), k) == if k in kw && !reserved then Some(kw[k]) else Lookup(e, k)
  {}

  // ---- When the readers agree ----

  /** `in` and `[]` always agree. */
  lemma {:induction false} ContainsIsLookup(e: Env, k: Key)
    ensures Contains(e, k) <==> Lookup(e, k).Some?
  {
    if e.Override? { ContainsIsLookup(e.subject, k); }
  }

  /** The topmost layer that mentions `k` has both a value and a tombstone for it. */
  predicate Clash(e: Env, k: Key) {
    e.Override? &&
    if k in e.layer.over then k in e.layer.deleted
    else k !in e.layer.deleted && Clash(e.subject, k)
  }

  /** `Dictionary` (and with it `keys`, `values` and `items`) agrees with `[]` on a key exactly when
      no layer that shows through has both a value and a tombstone for it. */
  lemma {:induction false} DictionaryIsLookupExactly(e: Env, k: Key)
    ensures Get(Dictionary(e), k) == Lookup(e, k) <==> !Clash(e, k)
    ensures k in Dictionary(e) <==> Contains(e, k) && !Clash(e, k)
  {
    if e.Override? {
      DictionaryIsLookupExactly(e.subject, k);
      ContainsIsLookup(e.subject, k);
    }
  }

  predicate NoDuplicates(s: seq<Key>) {
    forall k | k in s :: multiset(s)[k] == 1
  }

  /** Tombstones are distinct and no key has both a value and a tombstone. */
  predicate WellFormedLayer(l: Layer) {
    NoDuplicates(l.deleted) && forall k | k in l.deleted :: k !in l.over
  }

  predicate WellFormed(e: Env) {
    e.Override? ==> WellFormedLayer(e.layer) && WellFormed(e.subject)
  }

  lemma {:induction false} WellFormedNeverClashes(e: Env, k: Key)
    requires WellFormed(e)
    ensures !Clash(e, k)
  {
    if e.Override? { WellFormedNeverClashes(e.subject, k); }
  }

  /** Through any number of well-formed layers, every reader describes the same flat dictionary. */
  lemma WellFormedIsFlat(e: Env)
    requires WellFormed(e)
    ensures forall k :: Get(Dictionary(e), k) == Lookup(e, k)
    ensures forall k :: k in Dictionary(e) <==> Contains(e, k)
  {
    forall k ensures Get(Dictionary(e), k) == Lookup(e, k) && (k in Dictionary(e) <==> Contains(e, k)) {
      WellFormedNeverClashes(e, k);
      DictionaryIsLookupExactly(e, k);
    }
  }

  /** Deleting twice and then setting leaves a tombstone behind: the key is there and not there. */
  lemma DoubleDeleteBreaks(v: Value)
    ensures var e0 := Override(Base(map["A" := v]), Layer(map[], []));
            var e := SetItem(DelItem(DelItem(e0, "A").env, "A").env, "A", v).env;
            Lookup(e, "A") == Some(v) && "A" !in Dictionary(e)
  {
    assert RemoveFirst(["A", "A"], "A") == ["A"];
  }

  // ---- When the writers refine a flat dictionary ----

  lemma RemoveFirstKeepsDistinct(s: seq<Key>, k: Key)
    requires NoDuplicates(s)
    ensures NoDuplicates(RemoveFirst(s, k)) && k !in RemoveFirst(s, k)
    ensures forall x :: x in RemoveFirst(s, k) <==> x in s && x != k
  {
    var r := RemoveFirst(s, k);
    forall x ensures x in r <==> x in s && x != k {
      assert x in r <==> x in multiset(r);
      assert x in s <==> x in multiset(s);
    }
    assert k in s ==> k in multiset(s);
  }

  lemma SameDict(d1: Dict, d2: Dict)
    requires forall k :: Get(d1, k) == Get(d2, k)
    ensures d1 == d2
  {
    forall k ensures (k in d1 <==> k in d2) && (k in d1 ==> d1[k] == d2[k]) {
      assert Get(d1, k) == Get(d2, k);
    }
  }

  /** Setting a key of an override: exactly that key of the flat dictionary changes, the layers stay
      well formed, and the environment below is the same. */
  lemma SetRefines(e: Env, k: Key, v: Value)
    requires e.Override? && WellFormed(e) && IsIdentifier(k)
    ensures var o := SetItem(e, k, v);
            o.error == None && o.env.Override? && o.env.subject == e.subject && WellFormed(o.env) &&
            Dictionary(o.env) == Dictionary(e)[k := v]
  {
    RemoveFirstKeepsDistinct(e.layer.deleted, k);
    var e' := SetItem(e, k, v).env;
    WellFormedIsFlat(e);
    WellFormedIsFlat(e');
    forall x ensures Get(Dictionary(e'), x) == Get(Dictionary(e)[k := v], x) {
      assert Get(Dictionary(e), x) == Lookup(e, x) && Get(Dictionary(e'), x) == Lookup(e', x);
    }
    SameDict(Dictionary(e'), Dictionary(e)[k := v]);
  }

  /** A plain dictionary's `del`. */
  predicate DeletesFlat(d: Dict, k: Key, error: Option<Error>, d': Dict) {
    if k in d then error == None && d' == d - {k} else error == Some(KeyError) && d' == d
  }

  lemma DeletedLayer(d: seq<Key>, k: Key)
    requires NoDuplicates(d) && k !in d
    ensures NoDuplicates(d + [k])
  {
    assert multiset(d + [k]) == multiset(d) + multiset{k};
    assert k !in multiset(d);
    forall x | x in d + [k] ensures multiset(d + [k])[x] == 1 {
      if x != k { assert x in d; }
    }
  }

  /** Deleting a key of a well-formed override behaves like deleting from the flat dictionary,
      errors included, exactly when it does not repeat a deletion that hides something. */
  lemma DeleteRefinesExactly(e: Env, k: Key)
    requires e.Override? && WellFormed(e)
    ensures var o := DelItem(e, k);
            var repeated := k in e.layer.deleted && Contains(e.subject, k);
            && o.env.Override? && o.env.subject == e.subject
            && (DeletesFlat(Dictionary(e), k, o.error, Dictionary(o.env)) <==> !repeated)
            && (WellFormed(o.env) <==> !repeated)
  {
    var o := DelItem(e, k);
    WellFormedIsFlat(e);
    WellFormedIsFlat(e.subject);
    var repeated := k in e.layer.deleted && Contains(e.subject, k);
    var d := e.layer.deleted;
    assert multiset(d + [k]) == multiset(d) + multiset{k};
    assert k in d <==> k in multiset(d);
    if repeated {
      assert k in d + [k] && multiset(d + [k])[k] == 2;
    } else if o.error == None {
      assert k in Dictionary(e);
      DeletedLayer(d, k);
      WellFormedIsFlat(o.env);
      forall x ensures Get(Dictionary(o.env), x) == Get(Dictionary(e) - {k}, x) {
        assert Get(Dictionary(e), x) == Lookup(e, x) && Get(Dictionary(o.env), x) == Lookup(o.env, x);
      }
      SameDict(Dictionary(o.env), Dictionary(e) - {k});
    }
  }

  /** `_update` and `Replace` refine the flat update exactly when they write no tombstoned key. */
  lemma UpdateRefinesExactly(e: Env, other: Dict)
    requires e.Override? && WellFormed(e)
    ensures Dictionary(Update(e, other)) == Dictionary(e) + other <==> forall k | k in other :: k !in e.layer.deleted
    ensures WellFormed(Update(e, other)) <==> forall k | k in other :: k !in e.layer.deleted
  {
    var e' := Update(e, other);
    if k :| k in other && k in e.layer.deleted {
      assert k !in Dictionary(e') && k in Dictionary(e) + other;
      assert k in e'.layer.over;
    } else {
      assert Dictionary(e') == Dictionary(e) + other;
    }
  }

  /** `setdefault` refines the flat operation exactly when the key is not tombstoned. */
  lemma SetDefaultRefinesExactly(e: Env, k: Key, v: Value)
    requires e.Override? && WellFormed(e)
    ensures var flat := if k in Dictionary(e) then Dictionary(e) else Dictionary(e)[k := v];
            Dictionary(SetDefault(e, k, v)) == flat <==> k !in e.layer.deleted
  {
    WellFormedIsFlat(e);
    ContainsIsLookup(e, k);
    var e' := SetDefault(e, k, v);
    if k in e.layer.deleted {
      assert k !in Dictionary(e) && k !in Dictionary(e');
    } else if k !in Dictionary(e) {
      assert Dictionary(e') == Dictionary(e)[k := v];
    }
  }

  /** `_update_onlynew` looks for existing keys in the override only, so it refines "add the keys
      that are not there" exactly when no new value shadows a different one from below and no
      tombstone hides a new value. */
  predicate OnlyNewFits(e: Env, other: Dict)
    requires e.Override?
  {
    forall k | k in other && k !in e.layer.over ::
      k !in e.layer.deleted && (k in Dictionary(e) ==> Dictionary(e)[k] == other[k])
  }

  lemma UpdateOnlyNewRefinesExactly(e: Env, other: Dict)
    requires e.Override? && WellFormed(e)
    ensures Dictionary(UpdateOnlyNew(e, other)) == other + Dictionary(e) <==> OnlyNewFits(e, other)
  {
    WellFormedIsFlat(e);
    var e', flat := UpdateOnlyNew(e, other), other + Dictionary(e);
    if OnlyNewFits(e, other) {
      assert Dictionary(e') == flat;
    } else {
      var k :| k in other && k !in e.layer.over &&
        !(k !in e.layer.deleted && (k in Dictionary(e) ==> Dictionary(e)[k] == other[k]));
      assert k in flat && (k in Dictionary(e') ==> Dictionary(e')[k] == other[k]);
      assert Get(Dictionary(e'), k) != Get(flat, k);
    }
  }

  // ---- Whole runs ----

  datatype Op =
    | OpSet(k: Key, v: Value)
    | OpDel(k: Key)
    | OpSetDefault(k: Key, v: Value)
    | OpUpdate(other: Dict)
    | OpUpdateOnlyNew(other: Dict)

  function Apply(e: Env, op: Op): Outcome {
    match op
    case OpSet(k, v) => SetItem(e, k, v)
    case OpDel(k) => DelItem(e, k)
    case OpSetDefault(k, v) => Outcome(SetDefault(e, k, v), None)
    case OpUpdate(other) => Outcome(Update(e, other), None)
    case OpUpdateOnlyNew(other) => Outcome(UpdateOnlyNew(e, other), None)
  }

  /** The operation does not write over a tombstone, repeat a deletion, or shadow a different value. */
  predicate Benign(e: Env, op: Op)
    requires e.Override?
  {
    match op
    case OpSet(k, v) => true
    case OpDel(k) => !(k in e.layer.deleted && Contains(e.subject, k))
    case OpSetDefault(k, v) => k !in e.layer.deleted
    case OpUpdate(other) => forall k | k in other :: k !in e.layer.deleted
    case OpUpdateOnlyNew(other) => OnlyNewFits(e, other)
  }

  datatype FlatOutcome = FlatOutcome(dict: Dict, error: Option<Error>)

  /** The same operation on one plain dictionary. */
  function ApplyFlat(d: Dict, op: Op): FlatOutcome {
    match op
    case OpSet(k, v) => if IsIdentifier(k) then FlatOutcome(d[k := v], None) else FlatOutcome(d, Some(IllegalKey))
    case OpDel(k) => if k in d then FlatOutcome(d - {k}, None) else FlatOutcome(d, Some(KeyError))
    case OpSetDefault(k, v) => FlatOutcome(if k in d then d else d[k := v], None)
    case OpUpdate(other) => FlatOutcome(d + other, None)
    case OpUpdateOnlyNew(other) => FlatOutcome(other + d, None)
  }

  lemma StepSimulates(e: Env, op: Op)
    requires e.Override? && WellFormed(e) && Benign(e, op)
    ensures var o := Apply(e, op);
            o.env.Override? && o.env.subject == e.subject && WellFormed(o.env) &&
            ApplyFlat(Dictionary(e), op) == FlatOutcome(Dictionary(o.env), o.error)
  {
    match op
    case OpSet(k, v) => if IsIdentifier(k) { SetRefines(e, k, v); }
    case OpDel(k) => DeleteRefinesExactly(e, k);
    case OpSetDefault(k, v) => SetDefaultRefinesExactly(e, k, v); WellFormedIsFlat(e); ContainsIsLookup(e, k);
    case OpUpdate(other) => UpdateRefinesExactly(e, other);
    case OpUpdateOnlyNew(other) => UpdateOnlyNewRefinesExactly(e, other);
  }

  function RunOps(e: Env, ops: seq<Op>): (Env, seq<Option<Error>>)
    decreases ops
  {
    if ops == [] then (e, [])
    else
      var o := Apply(e, ops[0]);
      var (e', errors) := RunOps(o.env, ops[1..]);
      (e', [o.error] + errors)
  }

  function RunFlat(d: Dict, ops: seq<Op>): (Dict, seq<Option<Error>>)
    decreases ops
  {
    if ops == [] then (d, [])
    else
      var o := ApplyFlat(d, ops[0]);
      var (d', errors) := RunFlat(o.dict, ops[1..]);
      (d', [o.error] + errors)
  }

  predicate AllBenign(e: Env, ops: seq<Op>)
    requires e.Override?
    decreases ops
  {
    ops == [] || (Benign(e, ops[0]) && Apply(e, ops[0]).env.Override? && AllBenign(Apply(e, ops[0]).env, ops[1..]))
  }

  /** In every run of benign operations, an override over any number of well-formed layers is
      indistinguishable from one plain dictionary: same contents, same errors, and the environment
      it overrides never changes. */
  lemma {:induction false} RunSimulates(e: Env, ops: seq<Op>)
    requires e.Override? && WellFormed(e) && AllBenign(e, ops)
    ensures var (e', errors) := RunOps(e, ops);
            e'.Override? && e'.subject == e.subject && WellFormed(e') &&
            RunFlat(Dictionary(e), ops) == (Dictionary(e'), errors)
    decreases ops
  {
    if ops != [] {
      StepSimulates(e, ops[0]);
      RunSimulates(Apply(e, ops[0]).env, ops[1..]);
    }
  }

  // ---- What shows through ----

  function Stack(e: Env, layers: seq<Layer>): Env {
    if layers == [] then e else Override(Stack(e, layers[..|layers| - 1]), layers[|layers| - 1])
  }

  predicate Masks(l: Layer, k: Key) { k in l.over || k in l.deleted }

  /** A change to an environment shows through the layers above it exactly for the keys none of
      them masks. */
  lemma {:induction false} ShowsThroughExactly(e: Env, e': Env, layers: seq<Layer>, k: Key)
    requires Lookup(e, k) != Lookup(e', k)
    ensures Lookup(Stack(e, layers), k) != Lookup(Stack(e', layers), k) <==>
            forall i | 0 <= i < |layers| :: !Masks(layers[i], k)
    ensures (forall i | 0 <= i < |layers| :: !Masks(layers[i], k)) ==> Lookup(Stack(e', layers), k) == Lookup(e', k)
  {
    if layers != [] {
      var n := |layers| - 1;
      ShowsThroughExactly(e, e', layers[..n], k);
      assert (forall i | 0 <= i < |layers| :: !Masks(layers[i], k)) <==>
             !Masks(layers[n], k) && forall i | 0 <= i < n :: !Masks(layers[..n][i], k);
    }
  }

  // ---- What substitution sees ----

  /** The topmost layer that mentions `k` deletes it, yet some environment below has a value. */
  predicate Leaks(e: Env, k: Key) {
    e.Override? && k !in e.layer.over &&
    if k in e.layer.deleted then k in SubstView(e.subject) else Leaks(e.subject, k)
  }

  /** `lvars` ignores tombstones: substitution sees the value that `[]` gives, or neither sees one,
      exactly when no deleted key leaks from below. */
  lemma {:induction false} SubstSeesLookupExactly(e: Env, k: Key)
    ensures Get(SubstView(e), k) == Lookup(e, k) <==> !Leaks(e, k)
  {
    if e.Override? {
      SubstSeesLookupExactly(e.subject, k);
      assert k !in e.layer.over ==> Get(SubstView(e), k) == Get(SubstView(e.subject), k);
    }
  }

  predicate NoTombstones(e: Env) {
    e.Override? ==> e.layer.deleted == [] && NoTombstones(e.subject)
  }

  /** Without tombstones the substitution view is the flattened dictionary, at every depth. */
  lemma {:induction false} SubstIsDictionary(e: Env)
    requires NoTombstones(e)
    ensures SubstView(e) == Dictionary(e)
  {
    if e.Override? { SubstIsDictionary(e.subject); }
  }

  /** A deleted variable is gone from the dictionary and still substituted. */
  lemma DeletedStillSubstituted(v: Value)
    ensures var e := DelItem(Override(Base(map["A" := v]), Layer(map[], [])), "A").env;
            "A" !in Dictionary(e) && Get(SubstView(e), "A") == Some(v)
  {
    assert SubstView(Base(map["A" := v])) == map["A" := v];
    assert SubstView(Override(Base(map["A" := v]), Layer(map[], ["A"]))) == map["A" := v];
  }
}
