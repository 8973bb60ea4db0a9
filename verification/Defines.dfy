/** The forms a preprocessor definition can take in CPPDEFINES, how two of them are compared, and how
    they are rendered for the command line. */
module Defines {
  import opened Std
  import opened Strings

  /** A macro name or value: `None`, a string, another scalar (a number or a boolean, say) or a
      container.  The last two carry what Python's `==` compares and, apart from it, their `str()`: 1,
      `True` and 1.0 are equal and have three texts. */
  datatype Atom = ANone | AStr(s: string) | AScalar(value: int, text: string) | ABox(value: int, text: string)

  /** What Python's `==` compares. */
  datatype Key = KNone | KStr(s: string) | KScalar(value: int) | KBox(value: int)

  function KeyOf(a: Atom): Key {
    match a
    case ANone => KNone
    case AStr(s) => KStr(s)
    case AScalar(value, _) => KScalar(value)
    case ABox(value, _) => KBox(value)
  }

  function KeysOf(xs: seq<Atom>): (r: seq<Key>)
    ensures |r| == |xs| && forall i | 0 <= i < |xs| :: r[i] == KeyOf(xs[i])
  {
    seq(|xs|, i requires 0 <= i < |xs| => KeyOf(xs[i]))
  }

  predicate Scalar(a: Atom) { !a.ABox? }

  function Str(a: Atom): string {
    match a
    case ANone => "None"
    case AStr(s) => s
    case AScalar(_, text) => text
    case ABox(_, text) => text
  }

  type DictItems = seq<(string, Atom)>

  /** One element of a CPPDEFINES list or deque. */
  datatype Entry =
    | EStr(s: string)
    | ETuple(xs: seq<Atom>)
    | EList(xs: seq<Atom>)
    | EDict(items: DictItems)
    | ENone
    | EOther(value: int, truthy: bool)

  /** A value of CPPDEFINES, or a value added to it.  A value of another type has a text, and elements if
      it is a container one can iterate over. */
  datatype Form =
    | FStr(s: string)
    | FTuple(xs: seq<Atom>)
    | FList(entries: seq<Entry>)
    | FDeque(entries: seq<Entry>)
    | FDict(items: DictItems)
    | FOther(text: string, elements: Option<seq<Entry>>)

  datatype Error = UserError | TypeError | IndexError | ValueError | NameError

  // ---- Comparison ----

  function DictOf(items: DictItems): map<string, Key> {
    if items == [] then map[] else DictOf(items[..|items| - 1])[items[|items| - 1].0 := KeyOf(items[|items| - 1].1)]
  }

  /** Python's `==` on two entries. */
  predicate PyEq(a: Entry, b: Entry) {
    match (a, b)
    case (EStr(s), EStr(t)) => s == t
    case (ETuple(xs), ETuple(ys)) => KeysOf(xs) == KeysOf(ys)
    case (EList(xs), EList(ys)) => KeysOf(xs) == KeysOf(ys)
    case (EDict(xs), EDict(ys)) => DictOf(xs) == DictOf(ys)
    case (ENone, ENone) => true
    case (EOther(x, _), EOther(y, _)) => x == y
    case _ => false
  }

  /** Python's truth value of an entry. */
  predicate Truthy(e: Entry) {
    match e
    case EStr(s) => s != ""
    case ETuple(xs) => xs != []
    case EList(xs) => xs != []
    case EDict(items) => items != []
    case ENone => false
    case EOther(_, truthy) => truthy
  }

  datatype Norm = NList(xs: seq<Key>) | NDict(m: map<string, Key>) | NNone | NOther(value: int)

  function AsKeys(parts: seq<string>): (r: seq<Key>)
    ensures |r| == |parts| && forall i | 0 <= i < |parts| :: r[i] == KStr(parts[i])
  {
    seq(|parts|, i requires 0 <= i < |parts| => KStr(parts[i]))
  }

  /** `_macro_conv`, as far as `==` can tell: tuples and lists as lists, strings split at "=". */
  function Normal(e: Entry): Norm {
    match e
    case EStr(s) => var parts := Split(s, '='); if |parts| == 1 then NList([KStr(s), KNone]) else NList(AsKeys(parts))
    case ETuple(xs) => NList(KeysOf(xs))
    case EList(xs) => NList(KeysOf(xs))
    case EDict(items) => NDict(DictOf(items))
    case ENone => NNone
    case EOther(value, _) => NOther(value)
  }

  // ---- Rendering ----

  type Rendered = Result<seq<string>, Error>

  function RenderItems(items: DictItems): seq<string> {
    if items == [] then []
    else [if items[0].1 == ANone then items[0].0 else items[0].0 + "=" + Str(items[0].1)] + RenderItems(items[1..])
  }

  /** One element of a list, as `processDefines` renders it. */
  function RenderEntry(e: Entry): Rendered {
    match e
    case EStr(s) => Ok([s])
    case ETuple(xs) => RenderPair(xs)
    case EList(xs) => RenderPair(xs)
    case EDict(items) => Ok(RenderItems(items))
    case ENone => Ok([])
    case EOther(_, _) => Err(UserError)
  }

  function RenderPair(xs: seq<Atom>): Rendered {
    if |xs| > 2 then Err(UserError)
    else if xs == [] then Err(ValueError)
    else if |xs| == 2 && xs[1] != ANone then Ok([Str(xs[0]) + "=" + Str(xs[1])])
    else Ok([Str(xs[0])])
  }

  function RenderAll(es: seq<Entry>): Rendered {
    if es == [] then Ok([])
    else
      var rest := RenderAll(es[..|es| - 1]);
      var last := RenderEntry(es[|es| - 1]);
      if rest.Err? then rest else if last.Err? then last else Ok(rest.value + last.value)
  }

  /** `processDefines`. */
  function Render(f: Form): Rendered {
    match f
    case FList(es) => RenderAll(es)
    case FDeque(es) => RenderAll(es)
    case FTuple(xs) =>
      if |xs| > 2 then Err(UserError)
      else if xs == [] then Err(ValueError)
      else if |xs| == 2 && xs[1] != ANone then Ok([Str(xs[0]) + "=" + Str(xs[1])])
      else Err(NameError)  // the code reads a name that only the list branch binds
    case FDict(items) => Ok(RenderItems(items))
    case FStr(s) => Ok(Words(s))
    case FOther(text, _) => Ok([text])
  }

  /** `processDefines` as the code runs it, appending to one list. */
  method ProcessDefines(f: Form) returns (r: Rendered)
    ensures r == Render(f)
  {
    match f {
      case FStr(s) => r := Ok(Words(s));
      case FOther(text, _) => r := Ok([text]);
      case FDict(items) => var d := RenderDictLoop([], items); assert [] + RenderItems(items) == RenderItems(items); r := Ok(d);
      case FTuple(xs) =>
        if |xs| > 2 { return Err(UserError); }
        if |xs| == 0 { return Err(ValueError); }
        if |xs| == 2 && xs[1] != ANone { r := Ok([Str(xs[0]) + "=" + Str(xs[1])]); } else { r := Err(NameError); }
      case FList(es) => r := RenderListLoop(es);
      case FDeque(es) => r := RenderListLoop(es);
    }
  }

  method RenderDictLoop(before: seq<string>, items: DictItems) returns (dlist: seq<string>)
    ensures dlist == before + RenderItems(items)
  {
    dlist := before;
    var i := 0;
    while i < |items|
      invariant 0 <= i <= |items|
      invariant dlist + RenderItems(items[i..]) == before + RenderItems(items)
    {
      assert items[i..][1..] == items[i + 1..];
      var (macro, value) := items[i];
      dlist := dlist + [if value == ANone then macro else macro + "=" + Str(value)];
      i := i + 1;
    }
  }

  method RenderListLoop(es: seq<Entry>) returns (r: Rendered)
    ensures r == RenderAll(es)
  {
    var dlist: seq<string> := [];
    var i := 0;
    while i < |es|
      invariant 0 <= i <= |es|
      invariant RenderAll(es[..i]) == Ok(dlist)
    {
      ghost var before := dlist;
      assert es[..i + 1][..i] == es[..i];
      match es[i] {
        case ENone =>
        case ETuple(xs) =>
          if |xs| > 2 { RenderStops(es, i); return Err(UserError); }
          if |xs| == 0 { RenderStops(es, i); return Err(ValueError); }
          dlist := dlist + [if |xs| == 2 && xs[1] != ANone then Str(xs[0]) + "=" + Str(xs[1]) else Str(xs[0])];
        case EList(xs) =>
          if |xs| > 2 { RenderStops(es, i); return Err(UserError); }
          if |xs| == 0 { RenderStops(es, i); return Err(ValueError); }
          dlist := dlist + [if |xs| == 2 && xs[1] != ANone then Str(xs[0]) + "=" + Str(xs[1]) else Str(xs[0])];
        case EDict(items) => dlist := RenderDictLoop(dlist, items);
        case EStr(s) => dlist := dlist + [s];
        case EOther(_, _) => RenderStops(es, i); return Err(UserError);
      }
      assert RenderEntry(es[i]).Ok? && dlist == before + RenderEntry(es[i]).value;
      i := i + 1;
    }
    assert es[..|es|] == es;
    r := Ok(dlist);
  }

  lemma {:induction false} RenderStops(es: seq<Entry>, i: nat)
    requires i < |es| && RenderAll(es[..i]).Ok? && RenderEntry(es[i]).Err?
    ensures RenderAll(es) == Err(RenderEntry(es[i]).error)
  {
    if i == |es| - 1 {
      assert es[..|es| - 1] == es[..i];
    } else {
      var p := es[..|es| - 1];
      assert p[..i] == es[..i];
      RenderStops(p, i);
    }
  }

  lemma RenderSnoc(es: seq<Entry>, e: Entry)
    ensures RenderAll(es + [e]) ==
            (var rest := RenderAll(es);
             if rest.Err? then rest else if RenderEntry(e).Err? then RenderEntry(e) else Ok(rest.value + RenderEntry(e).value))
  {
    assert (es + [e])[..|es|] == es;
  }

  /** Rendering a concatenation is concatenating the renderings; the first error wins. */
  lemma {:induction false} RenderConcat(a: seq<Entry>, b: seq<Entry>)
    ensures RenderAll(a + b) ==
            (if RenderAll(a).Err? then RenderAll(a) else if RenderAll(b).Err? then RenderAll(b)
             else Ok(RenderAll(a).value + RenderAll(b).value))
  {
    if b == [] {
      assert a + b == a;
      if RenderAll(a).Ok? { assert RenderAll(a).value + [] == RenderAll(a).value; }
    } else {
      var n := |b| - 1;
      assert a + b == (a + b[..n]) + [b[n]] && b == b[..n] + [b[n]];
      RenderConcat(a, b[..n]);
      RenderSnoc(a + b[..n], b[n]);
      RenderSnoc(b[..n], b[n]);
      var (x, y, z) := (RenderAll(a), RenderAll(b[..n]), RenderEntry(b[n]));
      if x.Ok? && y.Ok? && z.Ok? { assert (x.value + y.value) + z.value == x.value + (y.value + z.value); }
    }
  }

  /** An entry that cannot be rendered: of an unknown type, or a pair of no or more than two parts. */
  predicate Bad(e: Entry, error: Error) {
    match e
    case EOther(_, _) => error == UserError
    case ETuple(xs) => (|xs| > 2 && error == UserError) || (|xs| == 0 && error == ValueError)
    case EList(xs) => (|xs| > 2 && error == UserError) || (|xs| == 0 && error == ValueError)
    case _ => false
  }

  /** Rendering a list raises an exception if and only if some entry is bad, and the first decides which. */
  lemma {:induction false} RenderFailsExactly(es: seq<Entry>, error: Error)
    ensures RenderAll(es) == Err(error) <==>
            exists i :: 0 <= i < |es| && Bad(es[i], error) && forall j, x | 0 <= j < i :: !Bad(es[j], x)
  {
    if es != [] {
      var n := |es| - 1;
      RenderFailsExactly(es[..n], error);
      forall x ensures RenderEntry(es[n]) == Err(x) <==> Bad(es[n], x) {}
      if RenderAll(es[..n]).Err? {
        var x := RenderAll(es[..n]).error;
        RenderFailsExactly(es[..n], x);
        var i :| 0 <= i < n && Bad(es[..n][i], x) && forall j, y | 0 <= j < i :: !Bad(es[..n][j], y);
        assert Bad(es[i], x);
      } else {
        NothingBad(es, n);
      }
    }
  }

  lemma {:induction false} NothingBad(es: seq<Entry>, n: nat)
    requires n <= |es| && RenderAll(es[..n]).Ok?
    ensures forall i, x | 0 <= i < n :: !Bad(es[i], x)
  {
    if n > 0 {
      assert es[..n][..n - 1] == es[..n - 1];
      NothingBad(es, n - 1);
      assert es[..n][n - 1] == es[n - 1] && RenderEntry(es[n - 1]).Ok?;
    }
  }

  /** `None` in a list renders to nothing, wherever it stands. */
  lemma NoneRendersNothing(a: seq<Entry>, b: seq<Entry>)
    ensures RenderAll(a + [ENone] + b) == RenderAll(a + b)
  {
    RenderSnoc(a, ENone);
    if RenderAll(a).Ok? { assert RenderAll(a).value + [] == RenderAll(a).value; }
    RenderConcat(a + [ENone], b);
    RenderConcat(a, b);
  }

  function EntriesOf(ws: seq<string>): (es: seq<Entry>)
    ensures |es| == |ws| && forall i | 0 <= i < |ws| :: es[i] == EStr(ws[i])
  {
    seq(|ws|, i requires 0 <= i < |ws| => EStr(ws[i]))
  }

  function TuplesOf(items: DictItems): (es: seq<Entry>)
    ensures |es| == |items| && forall i | 0 <= i < |items| :: es[i] == ETuple([AStr(items[i].0), items[i].1])
  {
    seq(|items|, i requires 0 <= i < |items| => ETuple([AStr(items[i].0), items[i].1]))
  }

  lemma {:induction false} RenderWords(ws: seq<string>)
    ensures RenderAll(EntriesOf(ws)) == Ok(ws)
  {
    if ws != [] {
      var n := |ws| - 1;
      RenderWords(ws[..n]);
      assert EntriesOf(ws) == EntriesOf(ws[..n]) + [EStr(ws[n])];
      RenderSnoc(EntriesOf(ws[..n]), EStr(ws[n]));
      assert ws == ws[..n] + [ws[n]];
    }
  }

  lemma {:induction false} RenderItemsConcat(a: DictItems, b: DictItems)
    ensures RenderItems(a + b) == RenderItems(a) + RenderItems(b)
  {
    if a == [] {
      assert a + b == b;
    } else {
      assert (a + b)[1..] == a[1..] + b;
      RenderItemsConcat(a[1..], b);
    }
  }

  /** A dictionary renders like the list of its items. */
  lemma {:induction false} RenderTuples(items: DictItems)
    ensures RenderAll(TuplesOf(items)) == Ok(RenderItems(items))
  {
    if items != [] {
      var n := |items| - 1;
      RenderTuples(items[..n]);
      var last := ETuple([AStr(items[n].0), items[n].1]);
      assert TuplesOf(items) == TuplesOf(items[..n]) + [last];
      RenderSnoc(TuplesOf(items[..n]), last);
      assert items == items[..n] + [items[n]];
      RenderItemsConcat(items[..n], [items[n]]);
      assert [items[n]][1..] == [];
      assert RenderItems([items[n]]) == RenderEntry(last).value;
    }
  }

  // ---- When definitions that compare equal render alike ----

  predicate MacroEntry(e: Entry) { e.EStr? || e.ETuple? || e.EList? }

  predicate Textual(e: Entry)
    requires MacroEntry(e)
  {
    e.EStr? || forall x | x in e.xs :: x.ANone? || x.AStr?
  }

  /** The parts of two pairs have the same texts. */
  predicate SameTexts(xs: seq<Atom>, ys: seq<Atom>) {
    |xs| == |ys| && forall i | 0 <= i < |xs| :: Str(xs[i]) == Str(ys[i])
  }

  /** The name of a pair is a string, or has a text without "=" as numbers do. */
  predicate NamePlain(xs: seq<Atom>) { xs != [] && (xs[0].AStr? || '=' !in Str(xs[0])) }

  lemma StringParts(s: string)
    ensures var parts := Split(s, '=');
            |parts| == 2 ==> s == parts[0] + "=" + parts[1]
  {
    var parts := Split(s, '=');
    if |parts| == 2 {
      JoinSplit(s, '=');
      assert parts[1..] == [parts[1]];
      assert Join(parts, '=') == parts[0] + ['='] + parts[1];
    }
  }

  /** A string and a pair that compare equal render alike. */
  lemma StringEqualsPair(s: string, xs: seq<Atom>)
    requires Normal(EStr(s)) == NList(KeysOf(xs)) && RenderPair(xs).Ok?
    ensures RenderPair(xs) == Ok([s])
  {
    var parts := Split(s, '=');
    var ks := KeysOf(xs);
    StringParts(s);
    assert |ks| == 2;
    assert ks[0] == KeyOf(xs[0]) && ks[1] == KeyOf(xs[1]);
    if |parts| == 1 {
      assert [KStr(s), KNone][0] == KStr(s) && [KStr(s), KNone][1] == KNone;
    } else {
      assert AsKeys(parts)[0] == KStr(parts[0]) && AsKeys(parts)[1] == KStr(parts[1]);
    }
  }

  lemma StringNormalInjective(s: string, t: string)
    requires Normal(EStr(s)) == Normal(EStr(t))
    ensures s == t
  {
    var p, q := Split(s, '='), Split(t, '=');
    JoinSplit(s, '=');
    JoinSplit(t, '=');
    var xs, ys := Normal(EStr(s)).xs, Normal(EStr(t)).xs;
    if |p| == 1 || |q| == 1 {
      assert xs[1] == ys[1] && xs[0] == ys[0];
    } else {
      assert |p| == |q|;
      forall i | 0 <= i < |p| ensures p[i] == q[i] { assert xs[i] == ys[i]; }
      assert p == q;
    }
  }

  /** Two pairs that compare equal render alike when their parts have the same texts, and, for names as
      they occur, only then. */
  lemma PairsRenderExactly(xs: seq<Atom>, ys: seq<Atom>)
    requires KeysOf(xs) == KeysOf(ys) && RenderPair(xs).Ok? && RenderPair(ys).Ok?
    ensures SameTexts(xs, ys) ==> RenderPair(xs) == RenderPair(ys)
    ensures NamePlain(xs) && NamePlain(ys) && RenderPair(xs) == RenderPair(ys) ==> SameTexts(xs, ys)
  {
    assert |xs| == |ys|;
    forall i | 0 <= i < |xs| ensures KeyOf(xs[i]) == KeyOf(ys[i]) {
      assert KeysOf(xs)[i] == KeyOf(xs[i]) && KeysOf(ys)[i] == KeyOf(ys[i]);
    }
    if |xs| == 2 && xs[1] != ANone {
      assert ys[1] != ANone;
      if NamePlain(xs) && NamePlain(ys) && RenderPair(xs) == RenderPair(ys) {
        TokenParts(xs[0], Str(xs[1]), ys[0], Str(ys[1]));
      }
    } else if |xs| == 2 {
      assert ys[1] == ANone;
    }
  }

  /** The token of a pair determines the texts of its parts. */
  lemma TokenParts(n: Atom, v: string, m: Atom, w: string)
    requires KeyOf(n) == KeyOf(m) && NamePlain([n]) && NamePlain([m])
    requires RenderPair([n, AStr(v)]) == RenderPair([m, AStr(w)])
    ensures Str(n) == Str(m) && v == w
  {
    var t := Str(n) + ['='] + v;
    assert [t][0] == [Str(m) + ['='] + w][0];
    assert [n][0] == n && [m][0] == m;
    if n.AStr? {
      assert v == t[|Str(n)| + 1..] && w == t[|Str(m)| + 1..];
    } else {
      FirstSeparator(Str(n), v, Str(m), w, '=');
    }
  }

  /** Definitions that compare equal render to the same token exactly when neither has a number, or the
      like, that equals its counterpart and has another text. */
  lemma EqualRenderExactly(a: Entry, b: Entry)
    requires MacroEntry(a) && MacroEntry(b) && Normal(a) == Normal(b)
    requires RenderEntry(a).Ok? && RenderEntry(b).Ok?
    ensures a.EStr? || b.EStr? || SameTexts(a.xs, b.xs) ==> RenderEntry(a) == RenderEntry(b)
    ensures !a.EStr? && !b.EStr? && NamePlain(a.xs) && NamePlain(b.xs) ==>
              (RenderEntry(a) == RenderEntry(b) <==> SameTexts(a.xs, b.xs))
  {
    if a.EStr? && b.EStr? {
      StringNormalInjective(a.s, b.s);
    } else if a.EStr? {
      StringEqualsPair(a.s, b.xs);
    } else if b.EStr? {
      StringEqualsPair(b.s, a.xs);
    } else {
      PairsRenderExactly(a.xs, b.xs);
    }
  }

  /** Without numbers, definitions that compare equal render to the same token, whatever form each has. */
  lemma EqualRenderEqual(a: Entry, b: Entry)
    requires MacroEntry(a) && MacroEntry(b) && Normal(a) == Normal(b) && Textual(a) && Textual(b)
    requires RenderEntry(a).Ok? && RenderEntry(b).Ok?
    ensures RenderEntry(a) == RenderEntry(b)
  {
    EqualRenderExactly(a, b);
    if !a.EStr? && !b.EStr? {
      forall i | 0 <= i < |a.xs| ensures Str(a.xs[i]) == Str(b.xs[i]) {
        assert KeysOf(a.xs)[i] == KeysOf(b.xs)[i];
        assert a.xs[i] in a.xs && b.xs[i] in b.xs;
      }
    }
  }

  /** With numbers it fails: ("A", 1) and ("A", True) compare equal and render differently. */
  lemma EqualNumbersRenderDifferently()
    ensures var one, true_ := ETuple([AStr("A"), AScalar(1, "1")]), ETuple([AStr("A"), AScalar(1, "True")]);
            PyEq(one, true_) && RenderEntry(one) == Ok(["A=1"]) && RenderEntry(true_) == Ok(["A=True"])
  {
    assert "A" + "=" + "1" == "A=1" && "A" + "=" + "True" == "A=True";
  }

  // ---- When definitions that render alike compare equal ----

  /** A string with at most one "=", or a pair of a string without "=" and `None` or a string without. */
  predicate Plain(e: Entry)
    requires MacroEntry(e)
  {
    if e.EStr? then |Split(e.s, '=')| <= 2 else PlainPair(e.xs)
  }

  predicate PlainPair(xs: seq<Atom>) {
    && |xs| == 2 && xs[0].AStr? && '=' !in xs[0].s
    && (xs[1].ANone? || (xs[1].AStr? && '=' !in xs[1].s))
  }

  /** A string and a pair with the same token compare equal exactly when the pair is plain. */
  lemma StringMatchesExactly(t: string, xs: seq<Atom>)
    requires RenderPair(xs) == Ok([t])
    ensures Normal(EStr(t)) == NList(KeysOf(xs)) <==> PlainPair(xs)
    ensures PlainPair(xs) ==> |Split(t, '=')| <= 2
  {
    assert [t][0] == t;
    if PlainPair(xs) {
      PlainPairMatches(t, xs);
    } else if Normal(EStr(t)) == NList(KeysOf(xs)) {
      MatchIsPlain(t, xs);
    }
  }

  lemma PlainPairMatches(t: string, xs: seq<Atom>)
    requires RenderPair(xs) == Ok([t]) && PlainPair(xs)
    ensures Normal(EStr(t)) == NList(KeysOf(xs)) && |Split(t, '=')| <= 2
  {
    assert [t][0] == t;
    if xs[1].ANone? {
      NoSeparator(t, '=');
      assert KeysOf(xs) == [KStr(t), KNone];
    } else {
      assert t == xs[0].s + ['='] + xs[1].s;
      SplitPairExactly(xs[0].s, '=', xs[1].s);
      assert AsKeys([xs[0].s, xs[1].s]) == [KStr(xs[0].s), KStr(xs[1].s)];
      assert KeysOf(xs) == [KStr(xs[0].s), KStr(xs[1].s)];
    }
  }

  lemma MatchIsPlain(t: string, xs: seq<Atom>)
    requires RenderPair(xs).Ok? && Normal(EStr(t)) == NList(KeysOf(xs))
    ensures PlainPair(xs)
  {
    var parts, ks := Split(t, '='), KeysOf(xs);
    PartsHaveNoSeparator(t, '=');
    assert |ks| == 2;
    assert ks[0] == KeyOf(xs[0]) && ks[1] == KeyOf(xs[1]);
    if |parts| == 1 {
      NoSeparator(t, '=');
      assert [KStr(t), KNone][0] == KStr(t) && [KStr(t), KNone][1] == KNone;
    } else {
      assert AsKeys(parts)[0] == KStr(parts[0]) && AsKeys(parts)[1] == KStr(parts[1]);
    }
  }

  /** For any two definitions that render to the same token: if one of them is plain, they compare equal
      exactly when both are; if neither is, exactly when both are strings, or both are pairs of equal
      parts. */
  lemma SameTokenMatchesExactly(a: Entry, b: Entry, t: string)
    requires MacroEntry(a) && MacroEntry(b) && RenderEntry(a) == Ok([t]) && RenderEntry(b) == Ok([t])
    ensures Normal(a) == Normal(b) <==>
            if Plain(a) || Plain(b) then Plain(a) && Plain(b)
            else (a.EStr? && b.EStr?) || (!a.EStr? && !b.EStr? && KeysOf(a.xs) == KeysOf(b.xs))
  {
    assert [t][0] == t;
    if !a.EStr? { StringMatchesExactly(t, a.xs); }
    if !b.EStr? { StringMatchesExactly(t, b.xs); }
    assert a.EStr? ==> a.s == [a.s][0] == t;
    assert b.EStr? ==> b.s == [b.s][0] == t;
    if !a.EStr? && !b.EStr? && KeysOf(a.xs) == KeysOf(b.xs) { PlainByKeys(a.xs, b.xs); }
  }

  lemma PlainByKeys(xs: seq<Atom>, ys: seq<Atom>)
    requires KeysOf(xs) == KeysOf(ys)
    ensures PlainPair(xs) <==> PlainPair(ys)
  {
    assert |xs| == |ys|;
    forall i | 0 <= i < |xs| ensures KeyOf(xs[i]) == KeyOf(ys[i]) { assert KeysOf(xs)[i] == KeysOf(ys)[i]; }
  }

  /** In particular, for a string and a pair of strings. */
  lemma StringMatchesPairExactly(name: string, value: string)
    ensures RenderEntry(EStr(name + "=" + value)) == RenderEntry(ETuple([AStr(name), AStr(value)]))
    ensures Normal(EStr(name + "=" + value)) == Normal(ETuple([AStr(name), AStr(value)])) <==>
            '=' !in name && '=' !in value
  {
    StringMatchesExactly(name + "=" + value, [AStr(name), AStr(value)]);
  }
}
