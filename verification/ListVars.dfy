/** `AppendUnique` and `PrependUnique` for one construction variable holding a string or a list, and
    `MergeFlags` for one holding a string, a list or a scalar. */
module ListVars {
  import opened Std
  import opened Dedup
  import Strings

  datatype Var = Text(text: string) | Items(items: seq<Item>)

  datatype Error = TypeError

  type Outcome = Result<Var, Error>

  /** The variable is missing, `None`, or the empty string, so that the new value replaces it. */
  predicate Blank(dk: Option<Var>) { dk == None || dk == Some(Text("")) }

  function AsItems(v: Var): seq<Item> {
    match v
    case Text(text) => [Str(text)]
    case Items(items) => items
  }

  /** `AppendUnique` for one key: `dk` is the variable now, `val` the value added. */
  function AppendUnique(dk: Option<Var>, val: Var, deleteExisting: bool): Outcome {
    if Blank(dk) then
      Ok(if val.Items? then Items(DeleteDuplicates(val.items, deleteExisting)) else val)
    else match val
      case Items(items) =>
        var new_ := DeleteDuplicates(items, deleteExisting);
        var old_ := AsItems(dk.value);
        if deleteExisting then Ok(Items(Without(old_, new_) + new_)) else Ok(Items(old_ + Without(new_, old_)))
      case Text(text) =>
        var x := Str(text);
        match dk.value
        case Items(items) =>
          if deleteExisting then Ok(Items(Without(items, [x]) + [x]))
          else if x in items then Ok(Items(items)) else Ok(Items(items + [x]))
        case Text(old_) =>
          // With delete_existing the code turns the old string into a list of characters and then
          // adds a string to that list.
          if deleteExisting then Err(TypeError) else Ok(Text(old_ + text))
  }

  function PrependUnique(dk: Option<Var>, val: Var, deleteExisting: bool): Outcome {
    if Blank(dk) then
      Ok(if val.Items? then Items(DeleteDuplicates(val.items, !deleteExisting)) else val)
    else match val
      case Items(items) =>
        var new_ := DeleteDuplicates(items, !deleteExisting);
        var old_ := AsItems(dk.value);
        if deleteExisting then Ok(Items(new_ + Without(old_, new_))) else Ok(Items(Without(new_, old_) + old_))
      case Text(text) =>
        var x := Str(text);
        match dk.value
        case Items(items) =>
          if deleteExisting then Ok(Items([x] + Without(items, [x])))
          else if x in items then Ok(Items(items)) else Ok(Items([x] + items))
        case Text(old_) =>
          if deleteExisting then Err(TypeError) else Ok(Text(text + old_))
  }

  /** Lists read backwards; the elements themselves are not touched. */
  function Mirror(o: Outcome): Outcome {
    match o
    case Ok(Items(items)) => Ok(Items(Rev(items)))
    case _ => o
  }

  function MirrorVar(v: Var): Var {
    match v
    case Items(items) => Items(Rev(items))
    case Text(_) => v
  }

  lemma DeleteDuplicatesMirror(s: seq<Item>, keepLast: bool)
    ensures DeleteDuplicates(Rev(s), keepLast) == Rev(DeleteDuplicates(s, !keepLast))
  {
    RevRev(s);
    RevRev(DropSeen(Rev(s)));
  }

  /** Prepending to a list is appending to it backwards, for both settings of `delete_existing`:
      the two methods are mirror images. */
  lemma PrependIsMirroredAppend(dk: Option<Var>, val: Var, deleteExisting: bool)
    requires val.Items? || (dk.Some? && dk.value.Items?)
    ensures var back := if dk.Some? then Some(MirrorVar(dk.value)) else None;
            PrependUnique(dk, val, deleteExisting) == Mirror(AppendUnique(back, MirrorVar(val), deleteExisting))
  {
    match val
    case Items(items) => MirrorList(dk, items, deleteExisting);
    case Text(text) => MirrorElementAdd(dk.value.items, Str(text));
  }

  lemma MirrorList(dk: Option<Var>, items: seq<Item>, deleteExisting: bool)
    ensures var back := if dk.Some? then Some(MirrorVar(dk.value)) else None;
            PrependUnique(dk, Items(items), deleteExisting) ==
            Mirror(AppendUnique(back, Items(Rev(items)), deleteExisting))
  {
    DeleteDuplicatesMirror(items, deleteExisting);
    var new_ := DeleteDuplicates(items, !deleteExisting);
    if Blank(dk) {
      RevRev(new_);
    } else {
      var old_ := AsItems(dk.value);
      assert AsItems(MirrorVar(dk.value)) == Rev(old_);
      MirrorListAdd(old_, new_);
    }
  }

  lemma MirrorListAdd(old_: seq<Item>, new_: seq<Item>)
    ensures new_ + Without(old_, new_) == Rev(Without(Rev(old_), Rev(new_)) + Rev(new_))
    ensures Without(new_, old_) + old_ == Rev(Rev(old_) + Without(Rev(new_), Rev(old_)))
  {
    RevRev(old_);
    RevRev(new_);
    MirrorWithout(old_, new_);
    MirrorWithout(new_, old_);
    RevAppend(Without(Rev(old_), Rev(new_)), Rev(new_));
    RevAppend(Rev(old_), Without(Rev(new_), Rev(old_)));
  }

  lemma MirrorElementAdd(items: seq<Item>, x: Item)
    ensures Rev(Rev(items)) == items && (x in Rev(items) <==> x in items)
    ensures [x] + Without(items, [x]) == Rev(Without(Rev(items), [x]) + [x])
    ensures [x] + items == Rev(Rev(items) + [x])
  {
    RevRev(items);
    RevMember(items, x);
    assert Rev([x]) == [x];
    MirrorListAdd(items, [x]);
    RevAppend(Rev(items), [x]);
  }

  lemma MirrorWithout(s: seq<Item>, t: seq<Item>)
    ensures Rev(Without(Rev(s), Rev(t))) == Without(s, t)
  {
    WithoutRev(s, t);
    forall x ensures x in Rev(t) <==> x in t { RevMember(t, x); }
    WithoutSame(Rev(s), Rev(t), t);
    RevRev(Without(s, t));
  }

  /** Adding the same value again changes nothing, except when the variable is a non-empty string:
      then the second addition concatenates or raises. */
  lemma AppendUniqueIdempotentExactly(dk: Option<Var>, val: Var, deleteExisting: bool)
    requires AppendUnique(dk, val, deleteExisting).Ok?
    ensures var once := AppendUnique(dk, val, deleteExisting).value;
            AppendUnique(Some(once), val, deleteExisting) == Ok(once) <==>
            !(once.Text? && once.text != "" && (deleteExisting || val.text != ""))
  {
    match val
    case Items(items) => AppendListIdempotent(dk, items, deleteExisting);
    case Text(text) =>
      if dk.Some? && dk.value.Items? {
        AppendElementIdempotent(dk.value.items, Str(text));
      } else {
        var once := AppendUnique(dk, val, deleteExisting).value;
        assert |once.text + text| == |once.text| + |text|;
        assert text == "" ==> once.text + text == once.text;
      }
  }

  /** A string added to a list becomes its last, or its first, element, unless it is there already and is
      to stay where it is. */
  lemma ElementLands(items: seq<Item>, text: string, deleteExisting: bool)
    ensures var x := Str(text);
            var others := Without(items, [x]);
            if x in items && !deleteExisting then
              && AppendUnique(Some(Items(items)), Text(text), false) == Ok(Items(items))
              && PrependUnique(Some(Items(items)), Text(text), false) == Ok(Items(items))
            else
              && AppendUnique(Some(Items(items)), Text(text), deleteExisting) == Ok(Items(others + [x]))
              && PrependUnique(Some(Items(items)), Text(text), deleteExisting) == Ok(Items([x] + others))
  {
    if Str(text) !in items { WithoutNothing(items, [Str(text)]); }
  }

  /** A string added to a string is concatenated, at the end or in front, unless existing values are to be
      deleted, which raises; added to nothing or to the empty string it is the new value. */
  lemma StringLands(a: string, b: string, deleteExisting: bool)
    ensures AppendUnique(None, Text(b), deleteExisting) == PrependUnique(None, Text(b), deleteExisting) == Ok(Text(b))
    ensures if a != "" && deleteExisting then
              AppendUnique(Some(Text(a)), Text(b), true) == PrependUnique(Some(Text(a)), Text(b), true) == Err(TypeError)
            else
              && AppendUnique(Some(Text(a)), Text(b), deleteExisting) == Ok(Text(a + b))
              && PrependUnique(Some(Text(a)), Text(b), deleteExisting) == Ok(Text(b + a))
  {
    assert "" + b == b && b + "" == b;
  }

  lemma AppendElementIdempotent(items: seq<Item>, x: Item)
    ensures Without(Without(items, [x]) + [x], [x]) + [x] == Without(items, [x]) + [x]
    ensures x in items + [x] && x in Without(items, [x]) + [x]
  {
    WithoutSplit(Without(items, [x]), [x], [x]);
    WithoutNothing(Without(items, [x]), [x]);
    WithoutAll([x], [x]);
    assert Without(items, [x]) + [] == Without(items, [x]);
  }

  lemma AppendListIdempotent(dk: Option<Var>, items: seq<Item>, deleteExisting: bool)
    ensures var once := AppendUnique(dk, Items(items), deleteExisting).value;
            once.Items? && AppendUnique(Some(once), Items(items), deleteExisting) == Ok(once)
  {
    var once := AppendUnique(dk, Items(items), deleteExisting).value;
    var new_ := DeleteDuplicates(items, deleteExisting);
    if Blank(dk) {
      WithoutAll(new_, new_);
      assert new_ + [] == new_ && [] + new_ == new_;
    } else if deleteExisting {
      var kept := Without(AsItems(dk.value), new_);
      WithoutSplit(kept, new_, new_);
      WithoutNothing(kept, new_);
      WithoutAll(new_, new_);
      assert kept + [] == kept;
    } else {
      WithoutAll(new_, once.items);
      assert once.items + [] == once.items;
    }
  }

  lemma PrependUniqueIdempotent(dk: Option<Var>, val: Var, deleteExisting: bool)
    requires val.Items? || (dk.Some? && dk.value.Items?)
    ensures PrependUnique(dk, val, deleteExisting).Ok?
    ensures var once := PrependUnique(dk, val, deleteExisting).value;
            once.Items? && PrependUnique(Some(once), val, deleteExisting) == Ok(once)
  {
    var back := if dk.Some? then Some(MirrorVar(dk.value)) else None;
    PrependIsMirroredAppend(dk, val, deleteExisting);
    AppendUniqueIdempotentExactly(back, MirrorVar(val), deleteExisting);
    var forward := AppendUnique(back, MirrorVar(val), deleteExisting).value;
    RevRev(forward.items);
    PrependIsMirroredAppend(Some(PrependUnique(dk, val, deleteExisting).value), val, deleteExisting);
  }

  // ---- MergeFlags ----

  predicate IsPath(key: string) {
    |key| >= 4 && key[|key| - 4..] == "PATH"
  }

  lemma PathsEndInPath(key: string)
    ensures IsPath(key) <==> exists p :: key == p + "PATH"
  {
    if IsPath(key) { assert key == key[..|key| - 4] + "PATH"; }
  }

  /** The loops at the end: path variables keep the first of equal elements, others the last. */
  function Tidy(key: string, s: seq<Item>): seq<Item> {
    if IsPath(key) then KeepFirst(s) else KeepLast(s)
  }

  /** A variable as `MergeFlags` finds it; a scalar has neither `append` nor a sum with a list, and
      cannot be looped over. */
  datatype Original = Missing | Whole(v: Var) | Scalar(x: Item, truthy: bool)

  /** A value that `MergeFlags` is given. */
  datatype Flags = Given(text: string) | Listed(items: seq<Item>) | Single(x: Item, truthy: bool)

  predicate Falsy(value: Flags) {
    match value
    case Given(text) => text == ""
    case Listed(items) => items == []
    case Single(_, truthy) => !truthy
  }

  predicate Empty(orig: Original) {
    match orig
    case Missing => true
    case Whole(v) => v == Text("") || v == Items([])
    case Scalar(_, truthy) => !truthy
  }

  /** `Split(value)`: the words of a string, a list as it is, anything else as the only element. */
  function SplitFlags(value: Flags): seq<Item> {
    match value
    case Given(text) => var words := Strings.Words(text); seq(|words|, i requires 0 <= i < |words| => Str(words[i]))
    case Listed(items) => items
    case Single(x, _) => [x]
  }

  function Characters(text: string): seq<Item> { seq(|text|, i requires 0 <= i < |text| => Str([text[i]])) }

  /** The elements that `MergeFlags` de-duplicates, in their order: what is there, a string or a scalar
      counting as one element, and then what is added. A string that nothing is added to is taken apart
      into its characters, and so a scalar raises. */
  function Joined(orig: Original, added: seq<Item>): Result<seq<Item>, Error> {
    if Empty(orig) then Ok(added)
    else match orig
         case Whole(Items(items)) => Ok(items + added)
         case Whole(Text(text)) => Ok(if added == [] then Characters(text) else [Str(text)] + added)
         case Scalar(x, _) => if added == [] then Err(TypeError) else Ok([x] + added)
  }

  /** `MergeFlags` for one variable, with `unique`. */
  function Merge(key: string, orig: Original, value: Flags): Result<Original, Error> {
    if Falsy(value) then Ok(orig)
    else match Joined(orig, SplitFlags(value))
         case Ok(all) => Ok(Whole(Items(Tidy(key, all))))
         case Err(e) => Err(e)
  }

  /** The coercions of the variable: what is missing or empty is replaced, and a string or a scalar counts as
      a list of one element, as long as there is something to add. */
  lemma MergeCoerces(key: string, orig: Original, items: seq<Item>, text: string, x: Item)
    requires items != []
    ensures Merge(key, Missing, Listed(items)) == Ok(Whole(Items(Tidy(key, items))))
    ensures Empty(orig) ==> Merge(key, orig, Listed(items)) == Merge(key, Missing, Listed(items))
    ensures text != "" ==> Merge(key, Whole(Text(text)), Listed(items)) == Merge(key, Whole(Items([Str(text)])), Listed(items))
    ensures Merge(key, Scalar(x, true), Listed(items)) == Merge(key, Whole(Items([x])), Listed(items))
  {}

  /** The coercions of the flags: a falsy value changes nothing, a string is split, anything else is a list of
      one element; and a blank string does not merge with a scalar. */
  lemma MergeSplits(key: string, orig: Original, text: string, x: Item)
    ensures Merge(key, orig, Given("")) == Merge(key, orig, Listed([])) == Merge(key, orig, Single(x, false)) == Ok(orig)
    ensures Merge(key, orig, Single(x, true)) == Merge(key, orig, Listed([x]))
    ensures Strings.Words(text) != [] ==>
              Merge(key, orig, Given(text)) == Merge(key, orig, Listed(SplitFlags(Given(text))))
    ensures text != "" && Strings.Words(text) == [] ==> Merge(key, Scalar(x, true), Given(text)) == Err(TypeError)
  {
    assert text == "" ==> Strings.Words(text) == [];
    assert SplitFlags(Given(text)) == [] <==> Strings.Words(text) == [];
  }

  /** Merging the same flags again changes nothing, whatever the variable held. */
  lemma {:induction false} MergeIdempotent(key: string, orig: Original, value: Flags)
    requires Merge(key, orig, value).Ok?
    ensures var once := Merge(key, orig, value).value; Merge(key, once, value) == Ok(once)
  {
    if !Falsy(value) {
      var added := SplitFlags(value);
      var all := Joined(orig, added).value;
      var rest := SplitAt(orig, added);
      TidyTwice(key, rest, added);
      var t := Tidy(key, all);
      if all != [] { assert all[0] in t; }
      assert added == [] ==> t + added == t;
      assert Joined(Whole(Items(t)), added) == Ok(t + added) || t == added == [];
    }
  }

  /** What is de-duplicated is something followed by what is added. */
  lemma SplitAt(orig: Original, added: seq<Item>) returns (rest: seq<Item>)
    requires Joined(orig, added).Ok?
    ensures Joined(orig, added).value == rest + added
  {
    var all := Joined(orig, added).value;
    assert added == all[|all| - |added|..];
    rest := all[..|all| - |added|];
  }

  lemma {:induction false} TidyTwice(key: string, s: seq<Item>, added: seq<Item>)
    ensures Tidy(key, Tidy(key, s + added) + added) == Tidy(key, s + added)
  {
    if IsPath(key) { FirstTwice(s, added); } else { LastTwice(s, added); }
  }

  lemma {:induction false} FirstTwice(s: seq<Item>, added: seq<Item>)
    ensures KeepFirst(KeepFirst(s + added) + added) == KeepFirst(s + added)
  {
    var t := KeepFirst(s + added);
    KeepFirstSplit(t, added);
    KeepFirstMeaning(s + added);
    KeepFirstOfDistinct(t);
    WithoutAll(KeepFirst(added), t);
  }

  lemma {:induction false} LastTwice(s: seq<Item>, added: seq<Item>)
    ensures KeepLast(KeepLast(s + added) + added) == KeepLast(s + added)
  {
    var a, b := Without(KeepLast(s), added), KeepLast(added);
    KeepLastSplit(s, added);
    KeepLastDistinct(s + added);
    KeepLastOfDistinct(a + b);
    KeepLastSplit(a + b, added);
    WithoutSplit(a, b, added);
    WithoutNothing(a, added);
    WithoutAll(b, added);
    assert Without(a + b, added) == a;
  }

  /** For a list of flags, `MergeFlags` is `AppendUnique` with the old elements kept in place for a path
      variable and moved to the end for any other, exactly when the elements that stay where they are
      have no repetitions; a string that is there always counts as one element. */
  lemma {:induction false} MergeIsAppendUniqueExactly(key: string, v: Var, items: seq<Item>)
    requires items != [] && !RepeatsUnhashable(items)
    ensures var appended := AppendUnique(Some(v), Items(items), !IsPath(key));
            && appended.Ok?
            && (Merge(key, Whole(v), Listed(items)) == Ok(Whole(appended.value)) <==>
                v == Text("") || Distinct(if IsPath(key) then AsItems(v) else Without(AsItems(v), items)))
  {
    var s, new_ := AsItems(v), DeleteDuplicates(items, !IsPath(key));
    assert new_ == Tidy(key, items) by { DeleteDuplicatesExactly(items, !IsPath(key)); }
    if v != Text("") {
      assert Joined(Whole(v), items) == Ok(s + items) by { assert s == [] ==> s + items == items; }
      assert Merge(key, Whole(v), Listed(items)) == Ok(Whole(Items(Tidy(key, s + items))));
      if IsPath(key) {
        assert AppendUnique(Some(v), Items(items), false) == Ok(Items(s + Without(new_, s)));
        FirstIsUniqueExactly(s, items);
      } else {
        assert AppendUnique(Some(v), Items(items), true) == Ok(Items(Without(s, new_) + new_));
        LastIsUniqueExactly(s, items);
      }
    }
  }

  lemma {:induction false} FirstIsUniqueExactly(s: seq<Item>, items: seq<Item>)
    ensures KeepFirst(s + items) == s + Without(KeepFirst(items), s) <==> Distinct(s)
  {
    KeepFirstSplit(s, items);
    SameTail(KeepFirst(s), s, Without(KeepFirst(items), s));
    KeepFirstMeaning(s);
    if Distinct(s) { KeepFirstOfDistinct(s); }
  }

  lemma {:induction false} LastIsUniqueExactly(s: seq<Item>, items: seq<Item>)
    ensures KeepLast(s + items) == Without(s, KeepLast(items)) + KeepLast(items) <==> Distinct(Without(s, items))
  {
    KeepLastSplit(s, items);
    WithoutSame(s, items, KeepLast(items));
    SameTail(Without(KeepLast(s), items), Without(s, items), KeepLast(items));
    KeepLastWithout(s, items);
    KeepLastDistinct(Without(s, items));
    if Distinct(Without(s, items)) { KeepLastOfDistinct(Without(s, items)); }
  }

  lemma {:induction false} SameTail(a: seq<Item>, b: seq<Item>, c: seq<Item>)
    ensures a + c == b + c <==> a == b
  {
    if a + c == b + c {
      assert a == (a + c)[..|a|] && b == (b + c)[..|b|];
    }
  }

  lemma {:induction false} KeepLastWithout(s: seq<Item>, t: seq<Item>)
    ensures KeepLast(Without(s, t)) == Without(KeepLast(s), t)
  {
    if s != [] {
      var x := s[0];
      KeepLastWithout(s[1..], t);
      assert s == [x] + s[1..];
      WithoutSplit([x], s[1..], t);
      WithoutSplit([x], KeepLast(s[1..]), t);
      WithoutOne(x, t);
      assert Without(s, t)[if x in t then 0 else 1..] == Without(s[1..], t);
    }
  }

  // ---- The code ----

  /** One construction variable. */
  class Variable {
    var dk: Option<Var>

    constructor (dk: Option<Var>)
      ensures this.dk == dk
    { this.dk := dk; }

    /** `AppendUnique`, for one key. */
    method Append(val: Var, deleteExisting: bool) returns (error: Option<Error>)
      modifies this
      ensures match AppendUnique(old(dk), val, deleteExisting)
              case Ok(after) => dk == Some(after) && error == None
              case Err(e) => dk == old(dk) && error == Some(e)
    {
      error := None;
      var items := if val.Items? then DeleteDuplicates(val.items, deleteExisting) else [];
      if dk == None || dk == Some(Text("")) {
        dk := Some(if val.Items? then Items(items) else val);
      } else if val.Items? {
        var existing := if dk.value.Items? then dk.value.items else [Str(dk.value.text)];
        if deleteExisting {
          existing := Without(existing, items);
        } else {
          items := Without(items, existing);
        }
        dk := Some(Items(existing + items));
      } else if dk.value.Items? {
        var x := Str(val.text);
        if deleteExisting {
          dk := Some(Items(Without(dk.value.items, [x]) + [x]));
        } else if x !in dk.value.items {
          dk := Some(Items(dk.value.items + [x]));
        }
      } else if deleteExisting {
        error := Some(TypeError);
      } else {
        dk := Some(Text(dk.value.text + val.text));
      }
    }

    /** `PrependUnique`, for one key. */
    method Prepend(val: Var, deleteExisting: bool) returns (error: Option<Error>)
      modifies this
      ensures match PrependUnique(old(dk), val, deleteExisting)
              case Ok(after) => dk == Some(after) && error == None
              case Err(e) => dk == old(dk) && error == Some(e)
    {
      error := None;
      var items := if val.Items? then DeleteDuplicates(val.items, !deleteExisting) else [];
      if dk == None || dk == Some(Text("")) {
        dk := Some(if val.Items? then Items(items) else val);
      } else if val.Items? {
        var existing := if dk.value.Items? then dk.value.items else [Str(dk.value.text)];
        if deleteExisting {
          existing := Without(existing, items);
        } else {
          items := Without(items, existing);
        }
        dk := Some(Items(items + existing));
      } else if dk.value.Items? {
        var x := Str(val.text);
        if deleteExisting {
          dk := Some(Items([x] + Without(dk.value.items, [x])));
        } else if x !in dk.value.items {
          dk := Some(Items([x] + dk.value.items));
        }
      } else if deleteExisting {
        error := Some(TypeError);
      } else {
        dk := Some(Text(val.text + dk.value.text));
      }
    }
  }

  /** One construction variable that flags are merged into. */
  class FlagsVariable {
    var now: Original

    constructor (now: Original)
      ensures this.now == now
    { this.now := now; }

    /** One round of the loop in `MergeFlags`. */
    method MergeFlags(key: string, value: Flags) returns (error: Option<Error>)
      modifies this
      ensures match Merge(key, old(now), value)
              case Ok(after) => now == after && error == None
              case Err(e) => now == old(now) && error == Some(e)
    {
      error := None;
      if Falsy(value) { return; }
      var orig := SplitFlags(value);
      if !Empty(now) {
        var added := orig;
        match now {
          case Whole(Items(items)) => orig := items + added;
          case Whole(Text(text)) => orig := if added == [] then Characters(text) else [Str(text)] + added;
          case Scalar(x, _) =>
            if added == [] { return Some(TypeError); }
            orig := [x] + added;
        }
      }
      var t;
      if IsPath(key) {
        t := KeepFirstLoop(orig);
      } else {
        t := KeepLastLoop(orig);
      }
      now := Whole(Items(t));
    }
  }
}
