/** The memoised scanner map of a `Base` environment: `_gsm`, `get_scanner`, and the mutators that
    do, or do not, throw the cached map away. */
module ScannerMap {
  import opened Std
  import Overrides
  import Strings

  type Key = string

  /** A scanner's keys are a fixed list, or the contents of a construction variable. */
  datatype SKeys = Fixed(keys: seq<Key>) | FromVar(name: Key)

  datatype Scanner = Scanner(id: nat, skeys: SKeys)

  datatype Val = Scanners(list: seq<Scanner>) | OneScanner(scanner: Scanner) | Words(words: seq<string>) | Text(text: string)

  type Dict = map<Key, Val>

  datatype Error = KeyError | TypeError | IllegalKey

  type KeyMap = map<Key, Scanner>

  function LowerChar(c: char): char {
    if 'A' <= c <= 'Z' then (c as int + 32) as char else c
  }

  function Lower(s: string): (l: string)
    ensures |l| == |s| && forall i | 0 <= i < |s| :: l[i] == LowerChar(s[i])
  {
    if s == "" then "" else [LowerChar(s[0])] + Lower(s[1..])
  }

  predicate OnWindows(d: Dict) { "PLATFORM" in d && d["PLATFORM"] == Text("win32") }

  /** A key as it is looked up: case is folded on win32. */
  function Fold(d: Dict, k: Key): Key {
    if k != "" && OnWindows(d) then Lower(k) else k
  }

  /** Exactly how a key is looked up: where PLATFORM is "win32", capital letters become small ones. */
  lemma FoldIs(d: Dict, k: Key, i: nat)
    requires i < |k|
    ensures |Fold(d, k)| == |k|
    ensures Fold(d, k)[i] == if "PLATFORM" in d && d["PLATFORM"] == Text("win32") && 'A' <= k[i] <= 'Z'
                             then (k[i] as int - 'A' as int + 'a' as int) as char else k[i]
  {}

  function SKeysOf(s: Scanner, d: Dict): seq<Key> {
    match s.skeys
    case Fixed(keys) => keys
    case FromVar(name) => if name in d then KeyWords(d[name]) else []
  }

  /** The words of a variable that holds scanner keys: a string is split. */
  function KeyWords(v: Val): seq<Key> {
    match v
    case Words(words) => words
    case Text(text) => Strings.Words(text)
    case _ => []
  }

  function ScannersOf(d: Dict): Result<seq<Scanner>, Error> {
    if "SCANNERS" !in d then Ok([])
    else match d["SCANNERS"]
         case Scanners(list) => Ok(list)
         case OneScanner(s) => Ok([s])
         case _ => Err(TypeError)
  }

  /** Reading PLATFORM raises when some key needs folding and the variable is gone. */
  predicate NeedsPlatform(list: seq<Scanner>, d: Dict) {
    exists i, j :: 0 <= i < |list| && 0 <= j < |SKeysOf(list[i], d)| && SKeysOf(list[i], d)[j] != ""
  }

  // ---- The reference definition: first match ----

  predicate Claims(s: Scanner, d: Dict, k: Key) {
    exists j :: 0 <= j < |SKeysOf(s, d)| && Fold(d, SKeysOf(s, d)[j]) == k
  }

  /** The keys a scanner claims: those it lists, the words of the string or list that its variable holds, or
      none if there is no such variable. */
  lemma ClaimsExactly(s: Scanner, d: Dict, k: Key)
    ensures s.skeys.Fixed? ==> (Claims(s, d, k) <==> exists x :: x in s.skeys.keys && Fold(d, x) == k)
    ensures s.skeys.FromVar? && s.skeys.name in d ==>
              match d[s.skeys.name]
              case Words(words) => Claims(s, d, k) <==> exists x :: x in words && Fold(d, x) == k
              case Text(text) => Claims(s, d, k) <==> exists x :: x in Strings.Words(text) && Fold(d, x) == k
              case _ => !Claims(s, d, k)
    ensures s.skeys.FromVar? && s.skeys.name !in d ==> !Claims(s, d, k)
  {
    var keys := SKeysOf(s, d);
    if x :| x in keys && Fold(d, x) == k {
      var j :| 0 <= j < |keys| && keys[j] == x;
    }
  }

  /** The first scanner in list order that claims `k`. */
  function FirstMatch(list: seq<Scanner>, d: Dict, k: Key): Option<Scanner> {
    if list == [] then None
    else if Claims(list[0], d, k) then Some(list[0])
    else FirstMatch(list[1..], d, k)
  }

  // ---- The map as the code builds it ----

  /** `result[k] = scanner` for each key of one scanner, in order. */
  function Enter(m: KeyMap, s: Scanner, keys: seq<Key>, d: Dict): KeyMap
    decreases keys
  {
    if keys == [] then m else Enter(m[Fold(d, keys[0]) := s], s, keys[1..], d)
  }

  /** The map built from the end of the list, earlier scanners overwriting later ones. */
  function Build(list: seq<Scanner>, d: Dict): KeyMap {
    if list == [] then map[] else Enter(Build(list[1..], d), list[0], SKeysOf(list[0], d), d)
  }

  function Fresh(d: Dict): Result<KeyMap, Error> {
    match ScannersOf(d)
    case Err(e) => Err(e)
    case Ok(list) => if "PLATFORM" !in d && NeedsPlatform(list, d) then Err(KeyError) else Ok(Build(list, d))
  }

  function Get(m: KeyMap, k: Key): Option<Scanner> { if k in m then Some(m[k]) else None }

  lemma {:induction false} EnterMeaning(m: KeyMap, s: Scanner, keys: seq<Key>, d: Dict, k: Key)
    ensures Get(Enter(m, s, keys, d), k) ==
            if exists j :: 0 <= j < |keys| && Fold(d, keys[j]) == k then Some(s) else Get(m, k)
    decreases keys
  {
    if keys != [] {
      var m' := m[Fold(d, keys[0]) := s];
      EnterMeaning(m', s, keys[1..], d, k);
      if j :| 0 <= j < |keys| && Fold(d, keys[j]) == k {
        if j > 0 { assert Fold(d, keys[1..][j - 1]) == k; }
      }
      if j :| 0 <= j < |keys[1..]| && Fold(d, keys[1..][j]) == k {
        assert Fold(d, keys[j + 1]) == k;
      }
    }
  }

  /** Building backwards with overwriting looks like a first match. */
  lemma {:induction false} BuildIsFirstMatch(list: seq<Scanner>, d: Dict, k: Key)
    ensures Get(Build(list, d), k) == FirstMatch(list, d, k)
  {
    if list != [] {
      BuildIsFirstMatch(list[1..], d, k);
      EnterMeaning(Build(list[1..], d), list[0], SKeysOf(list[0], d), d, k);
    }
  }

  // ---- The cached map and the operations ----

  datatype State = State(dict: Dict, memo: Option<KeyMap>)

  /** The cached map, if there is one, is what would be computed now. */
  predicate Coherent(s: State) {
    s.memo.Some? ==> Fresh(s.dict) == Ok(s.memo.value)
  }

  /** One keyword of `Append`, `AppendUnique`, `Prepend` or `PrependUnique`: how the new value of a
      variable follows from the old one is of no concern here, and it may raise. */
  type Combine = (Key, Option<Val>, Val) -> Result<Val, Error>

  function Lookup(d: Dict, k: Key): Option<Val> { if k in d then Some(d[k]) else None }

  /** The loop over the keywords: the dictionary so far, and whether it ended by an exception. */
  function CombineAll(d: Dict, kw: seq<(Key, Val)>, combine: Combine): (Dict, Option<Error>)
    decreases kw
  {
    if kw == [] then (d, None)
    else match combine(kw[0].0, Lookup(d, kw[0].0), kw[0].1)
         case Ok(v) => CombineAll(d[kw[0].0 := v], kw[1..], combine)
         case Err(e) => (d, Some(e))
  }

  datatype Op =
    | SetItem(key: Key, val: Val)
    | DelItem(key: Key)
    | SetDefault(key: Key, val: Val)
    | Update(other: Dict)
    | UpdateOnlyNew(other: Dict)
    | Replace(kw: Dict)
    | AddMany(items: seq<(Key, Val)>, combine: Combine)
    | ScanMap

  /** An assignment that is ignored, because the name is reserved, or refused as illegal. */
  predicate NotAssigned(d: Dict, k: Key) { k in Overrides.RESERVED || (k !in d && !Overrides.IsIdentifier(k)) }

  function Apply(s: State, op: Op): State {
    match op
    case SetItem(k, v) =>
      if k == "SCANNERS" then State(s.dict[k := v], None)
      else if NotAssigned(s.dict, k) then s
      else s.(dict := s.dict[k := v])
    case DelItem(k) => if k !in s.dict then s else State(s.dict - {k}, if k == "SCANNERS" then None else s.memo)
    case SetDefault(k, v) => if k in s.dict then s else s.(dict := s.dict[k := v])
    case Update(other) => s.(dict := s.dict + other)
    case UpdateOnlyNew(other) => s.(dict := other + s.dict)
    case Replace(kw) => State(s.dict + kw, None)
    case AddMany(items, combine) =>
      var (d, error) := CombineAll(s.dict, items, combine);
      State(d, if error == None then None else s.memo)
    case ScanMap =>
      if s.memo.Some? then s else match Fresh(s.dict) case Ok(m) => s.(memo := Some(m)) case Err(_) => s
  }

  // ---- What the map depends on ----

  /** The variables the keys of the current scanners are taken from. */
  predicate KeyVariable(d: Dict, k: Key) {
    ScannersOf(d).Ok? && exists i :: 0 <= i < |ScannersOf(d).value| && ScannersOf(d).value[i].skeys == FromVar(k)
  }

  predicate Lowercase(d: Dict) {
    ScannersOf(d).Ok? ==>
      forall i, j | 0 <= i < |ScannersOf(d).value| && 0 <= j < |SKeysOf(ScannersOf(d).value[i], d)| ::
        Lower(SKeysOf(ScannersOf(d).value[i], d)[j]) == SKeysOf(ScannersOf(d).value[i], d)[j]
  }

  /** Changing the variable `k` can change the map. */
  predicate Input(d: Dict, k: Key) {
    k == "SCANNERS" || KeyVariable(d, k) || (k == "PLATFORM" && !Lowercase(d))
  }

  /** Two dictionaries that agree on the scanners, their keys, and the folding of those keys. */
  predicate SameInputs(d: Dict, d': Dict) {
    && ScannersOf(d') == ScannersOf(d)
    && (ScannersOf(d).Ok? ==> forall i | 0 <= i < |ScannersOf(d).value| ::
          SKeysOf(ScannersOf(d).value[i], d') == SKeysOf(ScannersOf(d).value[i], d))
    && (OnWindows(d') == OnWindows(d) || Lowercase(d))
  }

  lemma {:induction false} EnterSame(m: KeyMap, s: Scanner, keys: seq<Key>, d: Dict, d': Dict)
    requires OnWindows(d') == OnWindows(d) || forall j | 0 <= j < |keys| :: Lower(keys[j]) == keys[j]
    ensures Enter(m, s, keys, d') == Enter(m, s, keys, d)
    decreases keys
  {
    if keys != [] {
      assert Fold(d', keys[0]) == Fold(d, keys[0]);
      EnterSame(m[Fold(d, keys[0]) := s], s, keys[1..], d, d');
    }
  }

  lemma {:induction false} BuildSame(list: seq<Scanner>, d: Dict, d': Dict)
    requires forall i | 0 <= i < |list| :: SKeysOf(list[i], d') == SKeysOf(list[i], d)
    requires OnWindows(d') == OnWindows(d) ||
             forall i, j | 0 <= i < |list| && 0 <= j < |SKeysOf(list[i], d)| ::
               Lower(SKeysOf(list[i], d)[j]) == SKeysOf(list[i], d)[j]
    ensures Build(list, d') == Build(list, d)
  {
    if list != [] {
      forall i | 0 <= i < |list[1..]| ensures SKeysOf(list[1..][i], d') == SKeysOf(list[1..][i], d) {
        assert list[1..][i] == list[i + 1];
      }
      BuildSame(list[1..], d, d');
      EnterSame(Build(list[1..], d), list[0], SKeysOf(list[0], d), d, d');
    }
  }

  lemma FreshSame(d: Dict, d': Dict)
    requires SameInputs(d, d') && Fresh(d).Ok? && ("PLATFORM" in d ==> "PLATFORM" in d')
    ensures Fresh(d') == Fresh(d)
  {
    var list := ScannersOf(d).value;
    BuildSame(list, d, d');
    assert NeedsPlatform(list, d') ==> NeedsPlatform(list, d);
  }

  /** Writing a variable that is not an input leaves the map alone, whatever is written. */
  lemma WriteOther(d: Dict, k: Key, v: Val)
    requires Fresh(d).Ok? && !Input(d, k)
    ensures Fresh(d[k := v]) == Fresh(d)
  {
    var d' := d[k := v];
    assert ScannersOf(d') == ScannersOf(d);
    forall i | 0 <= i < |ScannersOf(d).value|
      ensures SKeysOf(ScannersOf(d).value[i], d') == SKeysOf(ScannersOf(d).value[i], d)
    {
      assert ScannersOf(d).value[i].skeys != FromVar(k);
    }
    FreshSame(d, d');
  }

  // ---- Exactly which assignments leave a stale map ----

  ghost function MaxLen(ks: set<Key>): (n: nat)
    ensures forall k | k in ks :: |k| <= n
  {
    if ks == {} then 0
    else
      var k :| k in ks;
      var rest := MaxLen(ks - {k});
      assert forall x | x in ks :: x == k || x in ks - {k};
      if |k| > rest then |k| else rest
  }

  function Fill(n: nat): (s: string)
    ensures |s| == n
  {
    if n == 0 then "" else "z" + Fill(n - 1)
  }

  lemma {:induction false} ClaimedIsMapped(list: seq<Scanner>, d: Dict, i: nat, j: nat)
    requires i < |list| && j < |SKeysOf(list[i], d)|
    ensures Fold(d, SKeysOf(list[i], d)[j]) in Build(list, d)
  {
    var k := Fold(d, SKeysOf(list[i], d)[j]);
    BuildIsFirstMatch(list, d, k);
    SomeMatch(list, d, i, k);
  }

  lemma {:induction false} SomeMatch(list: seq<Scanner>, d: Dict, i: nat, k: Key)
    requires i < |list| && Claims(list[i], d, k)
    ensures FirstMatch(list, d, k).Some?
  {
    if i > 0 && !Claims(list[0], d, k) { SomeMatch(list[1..], d, i - 1, k); }
  }

  lemma {:induction false} MatchClaims(list: seq<Scanner>, d: Dict, k: Key) returns (i: nat, j: nat)
    requires FirstMatch(list, d, k).Some?
    ensures i < |list| && j < |SKeysOf(list[i], d)| && Fold(d, SKeysOf(list[i], d)[j]) == k
  {
    if Claims(list[0], d, k) {
      i := 0;
      j :| 0 <= j < |SKeysOf(list[0], d)| && Fold(d, SKeysOf(list[0], d)[j]) == k;
    } else {
      i, j := MatchClaims(list[1..], d, k);
      i := i + 1;
    }
  }

  /** A key variable can be given a word no scanner claimed before. */
  lemma KeyVariableMatters(d: Dict, k: Key) returns (v: Val)
    requires Fresh(d).Ok? && KeyVariable(d, k) && k != "SCANNERS"
    ensures Fresh(d[k := v]) != Fresh(d)
    ensures v.Words?
  {
    var m := Fresh(d).value;
    var z := Fill(MaxLen(m.Keys) + 1);
    v := Words([z]);
    var d' := d[k := v];
    var list := ScannersOf(d).value;
    assert ScannersOf(d') == Ok(list);
    var i :| 0 <= i < |list| && list[i].skeys == FromVar(k);
    ClaimedIsMapped(list, d', i, 0);
    assert |Fold(d', z)| == |z|;
  }

  lemma LowerLower(s: string)
    ensures Lower(Lower(s)) == Lower(s)
  {}

  /** When some key has an upper-case letter, switching the platform changes the map. */
  lemma PlatformMatters(d: Dict) returns (v: Val)
    requires Fresh(d).Ok? && !Lowercase(d) && !KeyVariable(d, "PLATFORM")
    ensures Fresh(d["PLATFORM" := v]) != Fresh(d)
    ensures v == Text("posix") || v == Text("win32")
  {
    v := if OnWindows(d) then Text("posix") else Text("win32");
    var d' := d["PLATFORM" := v];
    var list := ScannersOf(d).value;
    assert ScannersOf(d') == Ok(list);
    var i, j :| 0 <= i < |list| && 0 <= j < |SKeysOf(list[i], d)| && Lower(SKeysOf(list[i], d)[j]) != SKeysOf(list[i], d)[j];
    var x := SKeysOf(list[i], d)[j];
    assert list[i].skeys != FromVar("PLATFORM");
    assert SKeysOf(list[i], d') == SKeysOf(list[i], d);
    ClaimedIsMapped(list, d, i, j);
    ClaimedIsMapped(list, d', i, j);
    var w := if OnWindows(d) then d else d';
    if x in Build(list, w) {
      BuildIsFirstMatch(list, w, x);
      var a, b := MatchClaims(list, w, x);
      LowerLower(SKeysOf(list[a], w)[b]);
    }
  }

  /** Any list of scanners can be replaced by one that claims a word nobody claimed before. */
  lemma ScannersMatter(d: Dict) returns (v: Val)
    requires Fresh(d).Ok?
    ensures Fresh(d["SCANNERS" := v]) != Fresh(d)
    ensures v.Scanners?
  {
    var m := Fresh(d).value;
    var z := Fill(MaxLen(m.Keys) + 1);
    var list := [Scanner(0, Fixed([z]))];
    v := Scanners(list);
    var d' := d["SCANNERS" := v];
    assert ScannersOf(d') == Ok(list);
    ClaimedIsMapped(list, d', 0, 0);
    assert |Fold(d', z)| == |z|;
  }

  /** What `Input` says is exact: every input can be given a value that changes the map. */
  lemma InputMatters(d: Dict, k: Key) returns (v: Val)
    requires Fresh(d).Ok? && Input(d, k)
    ensures Fresh(d[k := v]) != Fresh(d)
    ensures v.Words? || v.Scanners? || v == Text("posix") || v == Text("win32")
  {
    if k == "SCANNERS" {
      v := ScannersMatter(d);
    } else if KeyVariable(d, k) {
      v := KeyVariableMatters(d, k);
    } else {
      v := PlatformMatters(d);
    }
  }

  /** `env[k] = v` never leaves a stale scanner map, whatever the value, exactly when no map is
      cached, or the variable is SCANNERS (which the special setter watches), or nothing is assigned, or
      it is neither a variable that holds scanner keys nor PLATFORM while some key has an upper-case
      letter. */
  lemma AssignmentSafeExactly(s: State, k: Key)
    requires Coherent(s)
    ensures (forall v :: Coherent(Apply(s, SetItem(k, v)))) <==>
            s.memo == None || k == "SCANNERS" || NotAssigned(s.dict, k) || !Input(s.dict, k)
  {
    if s.memo.Some? && k != "SCANNERS" && !NotAssigned(s.dict, k) {
      if Input(s.dict, k) {
        var v := InputMatters(s.dict, k);
        assert !Coherent(Apply(s, SetItem(k, v)));
      } else {
        forall v ensures Coherent(Apply(s, SetItem(k, v))) { WriteOther(s.dict, k, v); }
      }
    }
  }

  /** `setdefault` is not watched at all: it is safe, whatever the value, exactly when no map is cached,
      or the variable is there, or it is no input. */
  lemma SetDefaultSafeExactly(s: State, k: Key)
    requires Coherent(s)
    ensures (forall v :: Coherent(Apply(s, SetDefault(k, v)))) <==> s.memo == None || k in s.dict || !Input(s.dict, k)
  {
    if s.memo.Some? && k !in s.dict {
      if Input(s.dict, k) {
        var v := InputMatters(s.dict, k);
        assert !Coherent(Apply(s, SetDefault(k, v)));
      } else {
        forall v ensures Coherent(Apply(s, SetDefault(k, v))) { WriteOther(s.dict, k, v); }
      }
    }
  }

  /** A value that is as good as none. */
  function Neutral(k: Key): Val { if k == "SCANNERS" then Scanners([]) else Words([]) }

  function Current(d: Dict, k: Key): Val { if k in d then d[k] else Neutral(k) }

  /** Writing current or neutral values changes nothing. */
  lemma NeutralWrites(d: Dict, d': Dict)
    requires Fresh(d).Ok? && d.Keys <= d'.Keys && forall k | k in d' :: d'[k] == Current(d, k)
    ensures Fresh(d') == Fresh(d) && forall k :: Input(d', k) <==> Input(d, k)
  {
    assert ScannersOf(d') == ScannersOf(d);
    var list := ScannersOf(d).value;
    forall i | 0 <= i < |list| ensures SKeysOf(list[i], d') == SKeysOf(list[i], d) {
      if list[i].skeys.FromVar? { assert list[i].skeys.name in d' ==> d'[list[i].skeys.name] == Current(d, list[i].skeys.name); }
    }
    assert OnWindows(d') == OnWindows(d);
    FreshSame(d, d');
  }

  /** Among several variables written at once, one input is enough for a stale map. */
  lemma WritesMatter(d: Dict, ks: set<Key>, k: Key) returns (other: Dict)
    requires Fresh(d).Ok? && k in ks && Input(d, k)
    ensures other.Keys == ks && Fresh(d + other) != Fresh(d)
  {
    var same := map j | j in ks :: Current(d, j);
    var d1 := d + same;
    NeutralWrites(d, d1);
    var v := InputMatters(d1, k);
    other := same[k := v];
    assert d + other == d1[k := v];
  }

  /** `_update` of some variables is safe, whatever their values, exactly when no map is cached or none
      of them is an input. */
  lemma UpdateSafeExactly(s: State, ks: set<Key>)
    requires Coherent(s)
    ensures (forall other: Dict | other.Keys == ks :: Coherent(Apply(s, Update(other)))) <==>
            s.memo == None || forall k | k in ks :: !Input(s.dict, k)
  {
    if s.memo.Some? {
      if k :| k in ks && Input(s.dict, k) {
        var other := WritesMatter(s.dict, ks, k);
        assert !Coherent(Apply(s, Update(other)));
      } else {
        forall other: Dict | other.Keys == ks ensures Coherent(Apply(s, Update(other))) {
          AgreeingMapsAgree(s.dict, s.dict + other);
        }
      }
    }
  }

  /** `_update_onlynew`, likewise, for the variables that are not there yet. */
  lemma UpdateOnlyNewSafeExactly(s: State, ks: set<Key>)
    requires Coherent(s)
    ensures (forall other: Dict | other.Keys == ks :: Coherent(Apply(s, UpdateOnlyNew(other)))) <==>
            s.memo == None || forall k | k in ks && k !in s.dict :: !Input(s.dict, k)
  {
    var d := s.dict;
    if s.memo.Some? {
      if k :| k in ks && k !in d && Input(d, k) {
        var some := WritesMatter(d, ks - d.Keys, k);
        var other := (map j | j in ks :: Current(d, j)) + some;
        assert other + d == d + some;
        assert other.Keys == ks && !Coherent(Apply(s, UpdateOnlyNew(other)));
      } else {
        forall other: Dict | other.Keys == ks ensures Coherent(Apply(s, UpdateOnlyNew(other))) {
          AgreeingMapsAgree(d, other + d);
        }
      }
    }
  }

  // ---- Deleting a variable ----

  /** Every key that scanners take from the variable has the same first match without it. */
  ghost predicate KeysCovered(list: seq<Scanner>, d: Dict, k: Key)
    requires k in d
  {
    forall j | 0 <= j < |KeyWords(d[k])| ::
      FirstMatch(list, d - {k}, Fold(d, KeyWords(d[k])[j])) == FirstMatch(list, d, Fold(d, KeyWords(d[k])[j]))
  }

  /** A scanner that does not take its keys from the variable claims what it claimed. */
  lemma ClaimsWithout(s: Scanner, d: Dict, k: Key, x: Key)
    requires k in d && s.skeys != FromVar(k)
    requires k == "PLATFORM" ==> forall j | 0 <= j < |SKeysOf(s, d)| :: SKeysOf(s, d)[j] == ""
    ensures Claims(s, d - {k}, x) <==> Claims(s, d, x)
  {
    var d' := d - {k};
    assert SKeysOf(s, d') == SKeysOf(s, d);
    forall j | 0 <= j < |SKeysOf(s, d)| ensures Fold(d', SKeysOf(s, d)[j]) == Fold(d, SKeysOf(s, d)[j]) {}
  }

  /** Keys that no scanner takes from the variable keep their first match. */
  lemma {:induction false} MatchWithout(list: seq<Scanner>, d: Dict, k: Key, x: Key)
    requires k in d && (k == "PLATFORM" ==> !NeedsPlatform(list, d - {k}))
    requires forall j | 0 <= j < |KeyWords(d[k])| :: Fold(d, KeyWords(d[k])[j]) != x
    ensures FirstMatch(list, d - {k}, x) == FirstMatch(list, d, x)
  {
    if list != [] {
      var d' := d - {k};
      assert NeedsPlatform(list[1..], d') ==> NeedsPlatform(list, d') by {
        if i, j :| 0 <= i < |list[1..]| && 0 <= j < |SKeysOf(list[1..][i], d')| && SKeysOf(list[1..][i], d')[j] != "" {
          assert list[i + 1] == list[1..][i];
        }
      }
      if list[0].skeys == FromVar(k) {
        assert !Claims(list[0], d', x) && !Claims(list[0], d, x);
      } else {
        assert SKeysOf(list[0], d') == SKeysOf(list[0], d);
        ClaimsWithout(list[0], d, k, x);
      }
      MatchWithout(list[1..], d, k, x);
    }
  }

  /** Without scanners that take keys from it, only PLATFORM can matter. */
  lemma NoKeysWithout(list: seq<Scanner>, d: Dict, k: Key, x: Key)
    requires k in d && (k == "PLATFORM" ==> !NeedsPlatform(list, d - {k}))
    requires forall i | 0 <= i < |list| :: list[i].skeys != FromVar(k)
    ensures FirstMatch(list, d - {k}, x) == FirstMatch(list, d, x)
    decreases list
  {
    if list != [] {
      var d' := d - {k};
      assert NeedsPlatform(list[1..], d') ==> NeedsPlatform(list, d') by {
        if i, j :| 0 <= i < |list[1..]| && 0 <= j < |SKeysOf(list[1..][i], d')| && SKeysOf(list[1..][i], d')[j] != "" {
          assert list[i + 1] == list[1..][i];
        }
      }
      assert list[0].skeys != FromVar(k);
      assert SKeysOf(list[0], d') == SKeysOf(list[0], d);
      ClaimsWithout(list[0], d, k, x);
      forall i | 0 <= i < |list[1..]| ensures list[1..][i].skeys != FromVar(k) { assert list[1..][i] == list[i + 1]; }
      NoKeysWithout(list[1..], d, k, x);
    }
  }

  lemma SameMap(a: KeyMap, b: KeyMap)
    requires forall k :: Get(a, k) == Get(b, k)
    ensures a == b
  {
    forall k ensures (k in a <==> k in b) && (k in a ==> a[k] == b[k]) { assert Get(a, k) == Get(b, k); }
  }

  /** Deleting a variable leaves no stale map exactly when none is cached; or the variable is SCANNERS,
      which the special deleter watches, or is not there; or no scanner key needs PLATFORM, if it is
      that, and the scanner keys it held, if any, have the same first match without it. */
  lemma DelItemSafeExactly(s: State, k: Key)
    requires Coherent(s)
    ensures Coherent(Apply(s, DelItem(k))) <==>
            || s.memo == None || k == "SCANNERS" || k !in s.dict
            || (var list := ScannersOf(s.dict).value;
                && (k == "PLATFORM" ==> !NeedsPlatform(list, s.dict - {k}))
                && (KeyVariable(s.dict, k) ==> KeysCovered(list, s.dict, k)))
  {
    if s.memo.Some? && k != "SCANNERS" && k in s.dict {
      var d := s.dict;
      var d', list := d - {k}, ScannersOf(d).value;
      assert ScannersOf(d') == Ok(list);
      if k == "PLATFORM" && NeedsPlatform(list, d') {
        assert Fresh(d').Err?;
      } else {
        if i, j :| 0 <= i < |list| && 0 <= j < |SKeysOf(list[i], d')| && SKeysOf(list[i], d')[j] != "" {
          assert SKeysOf(list[i], d) == SKeysOf(list[i], d');
        }
        assert NeedsPlatform(list, d') ==> NeedsPlatform(list, d);
        DeletedMapExactly(list, d, k);
      }
    }
  }

  lemma DeletedMapExactly(list: seq<Scanner>, d: Dict, k: Key)
    requires k in d && (k == "PLATFORM" ==> !NeedsPlatform(list, d - {k}))
    ensures Build(list, d - {k}) == Build(list, d) <==>
            ((exists i :: 0 <= i < |list| && list[i].skeys == FromVar(k)) ==> KeysCovered(list, d, k))
  {
    var m, m' := Build(list, d), Build(list, d - {k});
    forall x ensures Get(m, x) == FirstMatch(list, d, x) && Get(m', x) == FirstMatch(list, d - {k}, x) {
      BuildIsFirstMatch(list, d, x);
      BuildIsFirstMatch(list, d - {k}, x);
    }
    if exists i :: 0 <= i < |list| && list[i].skeys == FromVar(k) {
      if KeysCovered(list, d, k) {
        forall x ensures Get(m', x) == Get(m, x) {
          if forall j | 0 <= j < |KeyWords(d[k])| :: Fold(d, KeyWords(d[k])[j]) != x { MatchWithout(list, d, k, x); }
        }
        SameMap(m', m);
      }
    } else {
      forall x ensures Get(m', x) == Get(m, x) { NoKeysWithout(list, d, k, x); }
      SameMap(m', m);
    }
  }

  // ---- Keyword methods that may raise ----

  /** A keyword method that raises has written all but the last of its variables at most. */
  lemma {:induction false} CombineErrorFrame(d: Dict, kw: seq<(Key, Val)>, combine: Combine, k: Key)
    requires CombineAll(d, kw, combine).1 != None && forall i | 0 <= i < |kw| - 1 :: kw[i].0 != k
    ensures Lookup(CombineAll(d, kw, combine).0, k) == Lookup(d, k)
    decreases kw
  {
    match combine(kw[0].0, Lookup(d, kw[0].0), kw[0].1)
    case Ok(v) =>
      forall i | 0 <= i < |kw[1..]| - 1 ensures kw[1..][i].0 != k { assert kw[1..][i] == kw[i + 1]; }
      if |kw| > 1 { assert kw[0].0 != k; }
      CombineErrorFrame(d[kw[0].0 := v], kw[1..], combine, k);
    case Err(_) =>
  }

  lemma CombineErrorAgrees(d: Dict, kw: seq<(Key, Val)>, combine: Combine)
    requires CombineAll(d, kw, combine).1 != None && forall i | 0 <= i < |kw| - 1 :: !Input(d, kw[i].0)
    ensures AgreeOnInputs(d, CombineAll(d, kw, combine).0)
  {
    if "PLATFORM" in d { CombineAllKeeps(d, kw, combine, "PLATFORM"); }
    forall k | Input(d, k) ensures Lookup(CombineAll(d, kw, combine).0, k) == Lookup(d, k) {
      CombineErrorFrame(d, kw, combine, k);
    }
  }

  /** Stores the new value, except that one value keeps the current one and one raises. */
  function Storing(): Combine {
    (k: Key, before: Option<Val>, v: Val) =>
      if v == Text("!") then Err(TypeError)
      else if v != Text("=") then Ok(v)
      else match before case Some(current) => Ok(current) case None => Ok(Neutral(k))
  }

  /** Current values up to variable `i`, which gets `v`; the next one raises. */
  function Trap(keys: seq<Key>, i: nat, v: Val): seq<(Key, Val)> {
    seq(|keys|, j requires 0 <= j < |keys| => (keys[j], if j < i then Text("=") else if j == i then v else Text("!")))
  }

  function Kept(d: Dict, keys: seq<Key>): Dict
    decreases keys
  {
    if keys == [] then d else Kept(d[keys[0] := Current(d, keys[0])], keys[1..])
  }

  lemma {:induction false} KeptIsCurrent(d: Dict, keys: seq<Key>)
    ensures d.Keys <= Kept(d, keys).Keys && forall k | k in Kept(d, keys) :: Kept(d, keys)[k] == Current(d, k)
    decreases keys
  {
    if keys != [] { KeptIsCurrent(d[keys[0] := Current(d, keys[0])], keys[1..]); }
  }

  lemma {:induction false} TrapRaises(d: Dict, keys: seq<Key>, i: nat, v: Val)
    requires i + 1 < |keys| && v != Text("!") && v != Text("=")
    ensures CombineAll(d, Trap(keys, i, v), Storing()) == (Kept(d, keys[..i])[keys[i] := v], Some(TypeError))
    decreases i
  {
    var kw := Trap(keys, i, v);
    if i == 0 {
      assert kw[1..][0] == (keys[1], Text("!"));
      assert CombineAll(d[keys[0] := v], kw[1..], Storing()) == (d[keys[0] := v], Some(TypeError));
    } else {
      assert kw[1..] == Trap(keys[1..], i - 1, v);
      assert keys[..i][1..] == keys[1..][..i - 1];
      TrapRaises(d[keys[0] := Current(d, keys[0])], keys[1..], i - 1, v);
    }
  }

  function KeywordsOf(items: seq<(Key, Val)>): seq<Key> { seq(|items|, j requires 0 <= j < |items| => items[j].0) }

  /** The keyword methods are safe, whatever the values and however they are combined, exactly when no
      map is cached or none of the variables but the last is an input. */
  lemma AddManySafeExactly(s: State, keys: seq<Key>)
    requires Coherent(s)
    ensures (forall items: seq<(Key, Val)>, combine: Combine | KeywordsOf(items) == keys :: Coherent(Apply(s, AddMany(items, combine)))) <==>
            s.memo == None || forall i | 0 <= i < |keys| - 1 :: !Input(s.dict, keys[i])
  {
    var d := s.dict;
    if s.memo.Some? {
      if i :| 0 <= i < |keys| - 1 && Input(d, keys[i]) {
        KeptIsCurrent(d, keys[..i]);
        NeutralWrites(d, Kept(d, keys[..i]));
        var v := InputMatters(Kept(d, keys[..i]), keys[i]);
        TrapRaises(d, keys, i, v);
        assert KeywordsOf(Trap(keys, i, v)) == keys;
        assert !Coherent(Apply(s, AddMany(Trap(keys, i, v), Storing())));
      } else {
        forall items: seq<(Key, Val)>, combine: Combine | KeywordsOf(items) == keys ensures Coherent(Apply(s, AddMany(items, combine))) {
          if CombineAll(d, items, combine).1 != None {
            forall i | 0 <= i < |items| - 1 ensures !Input(d, items[i].0) {
              assert KeywordsOf(items)[i] == items[i].0;
            }
            CombineErrorAgrees(d, items, combine);
            AgreeingMapsAgree(d, CombineAll(d, items, combine).0);
          }
        }
      }
    }
  }

  // ---- Whole runs ----

  /** Guards a caller can check: raw writes avoid the inputs of a cached map, and so does a keyword
      method with all its variables but the last, unless it happens to succeed. */
  predicate Safe(s: State, op: Op) {
    s.memo == None ||
    match op
    case SetItem(k, _) => k == "SCANNERS" || NotAssigned(s.dict, k) || !Input(s.dict, k)
    case DelItem(k) => k == "SCANNERS" || k !in s.dict || (!Input(s.dict, k) && k != "PLATFORM")
    case SetDefault(k, _) => k in s.dict || !Input(s.dict, k)
    case Update(other) => forall k | k in other :: !Input(s.dict, k)
    case UpdateOnlyNew(other) => forall k | k in other :: k in s.dict || !Input(s.dict, k)
    case Replace(_) => true
    case AddMany(items, combine) =>
      || (forall i | 0 <= i < |items| - 1 :: !Input(s.dict, items[i].0))
      || CombineAll(s.dict, items, combine).1 == None
    case ScanMap => true
  }

  ghost predicate AgreeOnInputs(d: Dict, d': Dict) {
    && (forall k | Input(d, k) :: Lookup(d', k) == Lookup(d, k))
    && ("PLATFORM" in d ==> "PLATFORM" in d')
  }

  lemma AgreeingMapsAgree(d: Dict, d': Dict)
    requires Fresh(d).Ok? && AgreeOnInputs(d, d')
    ensures Fresh(d') == Fresh(d)
  {
    assert Input(d, "SCANNERS");
    assert ScannersOf(d') == ScannersOf(d);
    forall i | 0 <= i < |ScannersOf(d).value|
      ensures SKeysOf(ScannersOf(d).value[i], d') == SKeysOf(ScannersOf(d).value[i], d)
    {
      var s := ScannersOf(d).value[i];
      if s.skeys.FromVar? {
        assert Input(d, s.skeys.name);
        assert Lookup(d', s.skeys.name) == Lookup(d, s.skeys.name);
      }
    }
    if !Lowercase(d) {
      assert Input(d, "PLATFORM");
      assert Lookup(d', "PLATFORM") == Lookup(d, "PLATFORM");
    }
    FreshSame(d, d');
  }

  lemma {:induction false} CombineAllKeeps(d: Dict, kw: seq<(Key, Val)>, combine: Combine, k: Key)
    requires k in d
    ensures k in CombineAll(d, kw, combine).0
    decreases kw
  {
    if kw != [] {
      match combine(kw[0].0, Lookup(d, kw[0].0), kw[0].1)
      case Ok(v) => CombineAllKeeps(d[kw[0].0 := v], kw[1..], combine, k);
      case Err(_) =>
    }
  }

  lemma StepCoherent(s: State, op: Op)
    requires Coherent(s) && Safe(s, op)
    ensures Coherent(Apply(s, op))
  {
    if s.memo.Some? {
      match op
      case SetItem(k, v) => if k != "SCANNERS" && !NotAssigned(s.dict, k) { WriteOther(s.dict, k, v); }
      case DelItem(k) => if k != "SCANNERS" && k in s.dict { AgreeingMapsAgree(s.dict, s.dict - {k}); }
      case SetDefault(k, v) => if k !in s.dict { WriteOther(s.dict, k, v); }
      case Update(other) => AgreeingMapsAgree(s.dict, s.dict + other);
      case UpdateOnlyNew(other) => AgreeingMapsAgree(s.dict, other + s.dict);
      case Replace(_) =>
      case AddMany(items, combine) =>
        if CombineAll(s.dict, items, combine).1 != None {
          CombineErrorAgrees(s.dict, items, combine);
          AgreeingMapsAgree(s.dict, CombineAll(s.dict, items, combine).0);
        }
      case ScanMap =>
    }
  }

  function RunOps(s: State, ops: seq<Op>): State
    decreases ops
  {
    if ops == [] then s else RunOps(Apply(s, ops[0]), ops[1..])
  }

  predicate AllSafe(s: State, ops: seq<Op>)
    decreases ops
  {
    ops == [] || (Safe(s, ops[0]) && AllSafe(Apply(s, ops[0]), ops[1..]))
  }

  /** In every run of safe operations from an environment with no cached map, a cached scanner map
      is always what would be computed now. */
  lemma {:induction false} RunCoherent(s: State, ops: seq<Op>)
    requires Coherent(s) && AllSafe(s, ops)
    ensures Coherent(RunOps(s, ops))
    decreases ops
  {
    if ops != [] {
      StepCoherent(s, ops[0]);
      RunCoherent(Apply(s, ops[0]), ops[1..]);
    }
  }

  /** `setdefault` on a missing SCANNERS variable, and a keyword method that raises after it has
      changed the scanners, both leave a stale map: the scanner that was added is never found. */
  lemma RawWritesGoStale(c: Scanner, combine: Combine)
    requires c.skeys == Fixed([".c"])
    requires combine("SCANNERS", None, OneScanner(c)) == Ok(OneScanner(c)) && combine("X", None, Text("")).Err?
    ensures var s := Apply(State(map["PLATFORM" := Text("posix")], None), ScanMap);
            && Coherent(s)
            && !Coherent(Apply(s, SetDefault("SCANNERS", OneScanner(c))))
            && !Coherent(Apply(s, AddMany([("SCANNERS", OneScanner(c)), ("X", Text(""))], combine)))
  {
    var d := map["PLATFORM" := Text("posix")];
    assert Fresh(d) == Ok(map[]);
    var d' := d["SCANNERS" := OneScanner(c)];
    ClaimedIsMapped([c], d', 0, 0);
    assert Fresh(d').Ok? && Fresh(d') != Ok(map[]);
    var items := [("SCANNERS", OneScanner(c)), ("X", Text(""))];
    assert items[1..][0] == ("X", Text(""));
    assert CombineAll(d, items, combine) == CombineAll(d', items[1..], combine);
    assert CombineAll(d', items[1..], combine).0 == d';
  }

  // ---- The environment object ----

  class BaseEnv {
    var dict: Dict
    var memo: Option<KeyMap>

    function Value(): State
      reads this
    {
      State(dict, memo)
    }

    constructor (dict: Dict)
      ensures Value() == State(dict, None)
    {
      this.dict := dict;
      this.memo := None;
    }

    /** `_gsm`: the cached map, or a new one that is cached unless computing it raises. */
    method ScannerMap() returns (r: Result<KeyMap, Error>)
      modifies this
      ensures Value() == Apply(old(Value()), ScanMap)
      ensures r == if old(memo).Some? then Ok(old(memo).value) else Fresh(dict)
    {
      if memo.Some? { return Ok(memo.value); }
      var scanners := ScannersOf(dict);
      if scanners.Err? { return Err(scanners.error); }
      var list := scanners.value;
      var result: KeyMap := map[];
      var i := |list|;
      while i > 0
        invariant 0 <= i <= |list|
        invariant unchanged(this)
        invariant "PLATFORM" !in dict ==> !NeedsPlatform(list[i..], dict)
        invariant result == Build(list[i..], dict)
      {
        i := i - 1;
        var keys := SKeysOf(list[i], dict);
        assert list[i..][1..] == list[i + 1..] && list[i..][0] == list[i];
        ghost var before := result;
        var j := 0;
        while j < |keys|
          invariant 0 <= j <= |keys|
          invariant unchanged(this)
          invariant "PLATFORM" !in dict ==> forall h | 0 <= h < j :: keys[h] == ""
          invariant Enter(result, list[i], keys[j..], dict) == Enter(before, list[i], keys, dict)
        {
          if keys[j] != "" && "PLATFORM" !in dict {
            assert NeedsPlatform(list, dict);
            return Err(KeyError);
          }
          assert keys[j..][1..] == keys[j + 1..];
          result := result[Fold(dict, keys[j]) := list[i]];
          j := j + 1;
        }
        if "PLATFORM" !in dict {
          NotNeeded(list, i, dict);
        }
      }
      assert list[0..] == list;
      memo := Some(result);
      r := Ok(result);
    }

    /** `get_scanner`. */
    method GetScanner(skey: Key) returns (r: Result<Option<Scanner>, Error>)
      modifies this
      ensures Coherent(old(Value())) ==> Coherent(Value())
      ensures r.Ok? && Coherent(old(Value())) ==>
                ScannersOf(dict).Ok? && r.value == FirstMatch(ScannersOf(dict).value, dict, Fold(dict, skey))
      ensures dict == old(dict)
    {
      if skey != "" && "PLATFORM" !in dict { return Err(KeyError); }
      var m := ScannerMap();
      if m.Err? { return Err(m.error); }
      var k := Fold(dict, skey);
      if ScannersOf(dict).Ok? { BuildIsFirstMatch(ScannersOf(dict).value, dict, k); }
      r := Ok(if k in m.value then Some(m.value[k]) else None);
    }

    method MapDelete()
      modifies this`memo
      ensures memo == None
    {
      memo := None;
    }

    /** `env[k] = v`: SCANNERS has a special setter, reserved names are ignored with a warning. */
    method SetItem(k: Key, v: Val) returns (error: Option<Error>)
      modifies this
      ensures Value() == Apply(old(Value()), Op.SetItem(k, v))
      ensures error == if k !in Overrides.RESERVED && k !in old(dict) && !Overrides.IsIdentifier(k) then Some(IllegalKey) else None
    {
      if k == "SCANNERS" {
        dict := dict[k := v];
        MapDelete();
      } else if k in Overrides.RESERVED {
        // ignored, with a warning
      } else if k !in dict && !Overrides.IsIdentifier(k) {
        return Some(IllegalKey);
      } else {
        dict := dict[k := v];
      }
      error := None;
    }

    method DelItem(k: Key) returns (error: Option<Error>)
      modifies this
      ensures Value() == Apply(old(Value()), Op.DelItem(k))
      ensures error == if k in old(dict) then None else Some(KeyError)
    {
      if k !in dict { return Some(KeyError); }
      dict := dict - {k};
      if k == "SCANNERS" { MapDelete(); }
      error := None;
    }

    /** `Append`, `AppendUnique`, `Prepend` and `PrependUnique`: one variable after the other, and
        the cached map is deleted only when the loop has finished. */
    method AddMany(items: seq<(Key, Val)>, combine: Combine) returns (error: Option<Error>)
      modifies this
      ensures Value() == Apply(old(Value()), Op.AddMany(items, combine))
      ensures error == CombineAll(old(dict), items, combine).1
    {
      var i := 0;
      while i < |items|
        invariant 0 <= i <= |items|
        invariant memo == old(memo)
        invariant CombineAll(dict, items[i..], combine) == CombineAll(old(dict), items, combine)
      {
        var (k, v) := items[i];
        assert items[i..][1..] == items[i + 1..];
        match combine(k, Lookup(dict, k), v) {
          case Ok(new_) => dict := dict[k := new_];
          case Err(e) => return Some(e);
        }
        i := i + 1;
      }
      MapDelete();
      error := None;
    }
  }

  lemma NotNeeded(list: seq<Scanner>, i: nat, d: Dict)
    requires i < |list| && !NeedsPlatform(list[i + 1..], d)
    requires forall h | 0 <= h < |SKeysOf(list[i], d)| :: SKeysOf(list[i], d)[h] == ""
    ensures !NeedsPlatform(list[i..], d)
  {
    forall a, b | 0 <= a < |list[i..]| && 0 <= b < |SKeysOf(list[i..][a], d)|
      ensures SKeysOf(list[i..][a], d)[b] == ""
    {
      assert list[i..][a] == if a == 0 then list[i] else list[i + 1..][a - 1];
    }
  }
}
