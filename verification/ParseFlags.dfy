/** `ParseFlags`: distributing command-line words over construction variables. */
module ParseFlags {
  import opened Std
  import opened Strings
  import D = Defines
  import C = CppDefines

  datatype Key =
    | ASFLAGS | CFLAGS | CCFLAGS | CXXFLAGS | CPPDEFINES | CPPFLAGS | CPPPATH | FRAMEWORKPATH
    | FRAMEWORKS | LIBPATH | LIBS | LINKFLAGS | RPATH

  /** What is stored: a word, a file node, an option with its argument (a word or a file node), or a
      macro with a value. */
  datatype Flag =
    | Word(s: string)
    | File(s: string)
    | Pair(option: string, s: string)
    | FilePair(option: string, s: string)
    | Valued(name: string, s: string)

  datatype Emit = Emit(key: Key, flag: Flag)

  /** `append_next_arg_to`: a variable waits for the next word, a macro does, or an option does. */
  datatype Pending = Idle | ToVar(key: Key) | ToDefine | ToOption(option: string)

  datatype Error = IndexError

  datatype Step = Step(emits: seq<Emit>, next: Pending)

  // ---- One word ----

  /** `append_define`. */
  function Define(name: string): Flag {
    var t := Split(name, '=');
    if |t| == 1 then Word(name) else Valued(t[0], Join(t[1..], '='))
  }

  const OPTIONS := ["-include", "-imacros", "-isysroot", "-isystem", "-iquote", "-idirafter", "-arch", "--param"]
  const BOTH := ["-mno-cygwin", "-pthread", "-openmp", "-fmerge-all-constants", "-fopenmp"]

  /** A word that follows an option waiting for it. */
  function Finish(p: Pending, w: string): seq<Emit>
    requires !p.Idle?
  {
    match p
    case ToVar(key) => [Emit(key, Word(w))]
    case ToDefine => [Emit(CPPDEFINES, Define(w))]
    case ToOption(o) =>
      if o == "-include" || o == "-imacros" then [Emit(CCFLAGS, FilePair(o, w))]
      else if o == "-isysroot" || o == "-arch" then [Emit(CCFLAGS, Pair(o, w)), Emit(LINKFLAGS, Pair(o, w))]
      else [Emit(CCFLAGS, Pair(o, w))]
  }

  /** An option whose argument is attached, or the next word if there is nothing attached. */
  function Attached(w: string, key: Key): Step
    requires |w| >= 2
  {
    if w[2..] != "" then Step([Emit(key, Word(w[2..]))], Idle) else Step([], ToVar(key))
  }

  function Store(key: Key, w: string): Step { Step([Emit(key, Word(w))], Idle) }

  function StoreBoth(w: string): Step { Step([Emit(CCFLAGS, Word(w)), Emit(LINKFLAGS, Word(w))], Idle) }

  /** `'++' in s`. */
  predicate HasPlusPlus(s: string) { exists i :: 0 <= i < |s| - 1 && s[i] == '+' && s[i + 1] == '+' }

  /** A word met while no option waits.  The order of the tests matters. */
  function Start(w: string): Result<Step, Error> {
    if w == "" then Err(IndexError)
    else if w[0] !in {'-', '+'} then Ok(Step([Emit(LIBS, File(w))], Idle))
    else if w == "-dylib_file" then Ok(Step([Emit(LINKFLAGS, Word(w))], ToVar(LINKFLAGS)))
    else if "-L" <= w then Ok(Attached(w, LIBPATH))
    else if "-l" <= w then Ok(Attached(w, LIBS))
    else if "-I" <= w then Ok(Attached(w, CPPPATH))
    else if "-Wa," <= w then Ok(Step([Emit(ASFLAGS, Word(w[4..])), Emit(CCFLAGS, Word(w))], Idle))
    else if "-Wl," <= w then
      if "-Wl,-rpath=" <= w then Ok(Store(RPATH, w[11..]))
      else if "-Wl,-R," <= w then Ok(Store(RPATH, w[7..]))
      else if "-Wl,-R" <= w then Ok(Store(RPATH, w[6..]))
      else Ok(Store(LINKFLAGS, w))
    else if "-Wp," <= w then Ok(Store(CPPFLAGS, w))
    else if "-D" <= w then
      if w[2..] != "" then Ok(Step([Emit(CPPDEFINES, Define(w[2..]))], Idle)) else Ok(Step([], ToDefine))
    else Ok(StartOther(w))
  }

  /** The tests of `Start` that follow the one for "-D". */
  function StartOther(w: string): Step
    requires w != ""
  {
    if w == "-framework" then Step([], ToVar(FRAMEWORKS))
    else if "-frameworkdir=" <= w then Store(FRAMEWORKPATH, w[14..])
    else if "-F" <= w then Attached(w, FRAMEWORKPATH)
    else if w in BOTH || "-fsanitize" <= w then StoreBoth(w)
    else if w == "-mwindows" then Store(LINKFLAGS, w)
    else if "-std=" <= w then Store(if HasPlusPlus(w[5..]) then CXXFLAGS else CFLAGS, w)
    else if "-stdlib=" <= w then Store(CXXFLAGS, w)
    else if w[0] == '+' then StoreBoth(w)
    else if w in OPTIONS then Step([], ToOption(w))
    else Store(CCFLAGS, w)
  }

  function Next(p: Pending, w: string): Result<Step, Error> {
    if p.Idle? then Start(w) else Ok(Step(Finish(p, w), Idle))
  }

  // ---- A list of words ----

  /** The flags stored by a list of words, in order, and what is still waiting at the end. */
  function ParseFrom(p: Pending, ws: seq<string>): Result<Step, Error>
    decreases ws
  {
    if ws == [] then Ok(Step([], p))
    else match Next(p, ws[0])
         case Err(e) => Err(e)
         case Ok(step) =>
           match ParseFrom(step.next, ws[1..])
           case Err(e) => Err(e)
           case Ok(rest) => Ok(Step(step.emits + rest.emits, rest.next))
  }

  function Parse(ws: seq<string>): Result<Step, Error> { ParseFrom(Idle, ws) }

  /** The flags stored under one variable. */
  function Project(log: seq<Emit>, key: Key): seq<Flag> {
    if log == [] then []
    else (if log[0].key == key then [log[0].flag] else []) + Project(log[1..], key)
  }

  lemma {:induction false} ProjectConcat(a: seq<Emit>, b: seq<Emit>, key: Key)
    ensures Project(a + b, key) == Project(a, key) + Project(b, key)
  {
    if a == [] {
      assert a + b == b;
    } else {
      assert (a + b)[1..] == a[1..] + b;
      ProjectConcat(a[1..], b, key);
    }
  }

  /** The result of parsing two lists, if the second is parsed on its own. */
  function Combine(x: Result<Step, Error>, y: Result<Step, Error>): Result<Step, Error> {
    if x.Err? then x else if y.Err? then y else Ok(Step(x.value.emits + y.value.emits, y.value.next))
  }

  lemma {:induction false} ParseConcat(p: Pending, a: seq<string>, b: seq<string>)
    ensures ParseFrom(p, a + b) ==
            (if ParseFrom(p, a).Err? then ParseFrom(p, a)
             else Combine(ParseFrom(p, a), ParseFrom(ParseFrom(p, a).value.next, b)))
    decreases a
  {
    if a == [] {
      assert a + b == b;
      if ParseFrom(p, b).Ok? { assert [] + ParseFrom(p, b).value.emits == ParseFrom(p, b).value.emits; }
    } else if Next(p, a[0]).Ok? {
      var step := Next(p, a[0]).value;
      assert (a + b)[1..] == a[1..] + b;
      ParseConcat(step.next, a[1..], b);
      if ParseFrom(p, a + b).Ok? {
        var x := ParseFrom(step.next, a[1..]).value;
        var y := ParseFrom(x.next, b).value;
        assert step.emits + (x.emits + y.emits) == (step.emits + x.emits) + y.emits;
      }
    }
  }

  /** Parsing distributes over concatenation for every continuation exactly when the first list
      leaves no option waiting for its argument. */
  lemma DistributesExactly(ws: seq<string>)
    requires Parse(ws).Ok?
    ensures Parse(ws).value.next.Idle? <==> forall more :: Parse(ws + more) == Combine(Parse(ws), Parse(more))
  {
    forall more ensures Parse(ws).value.next.Idle? ==> Parse(ws + more) == Combine(Parse(ws), Parse(more)) {
      ParseConcat(Idle, ws, more);
    }
    if !Parse(ws).value.next.Idle? {
      WaitingTakesTheNextWord(ws, "x");
    }
  }

  /** A word that is a library on its own is something else when an option is waiting. */
  lemma WaitingTakesTheNextWord(ws: seq<string>, w: string)
    requires Parse(ws).Ok? && !Parse(ws).value.next.Idle? && w != "" && w[0] !in {'-', '+'}
    ensures Parse(ws + [w]) != Combine(Parse(ws), Parse([w]))
    ensures Parse(ws + [w]) == Ok(Step(Parse(ws).value.emits + Finish(Parse(ws).value.next, w), Idle))
  {
    var x := Parse(ws).value;
    ParseConcat(Idle, ws, [w]);
    assert [w][1..] == [];
    assert Finish(x.next, w) + [] == Finish(x.next, w);
    assert ParseFrom(x.next, [w]) == Ok(Step(Finish(x.next, w), Idle));
    var alone := [Emit(LIBS, File(w))];
    assert alone + [] == alone;
    assert Parse([w]) == Ok(Step(alone, Idle));
    assert Finish(x.next, w)[0] != alone[0];
    assert (x.emits + alone)[|x.emits|] == alone[0];
    assert (x.emits + Finish(x.next, w))[|x.emits|] == Finish(x.next, w)[0];
  }

  /** Key by key, the distribution is concatenation. */
  lemma DistributesByKey(ws: seq<string>, more: seq<string>, key: Key)
    requires Parse(ws).Ok? && Parse(ws).value.next.Idle? && Parse(more).Ok?
    ensures Parse(ws + more).Ok?
    ensures Project(Parse(ws + more).value.emits, key) ==
            Project(Parse(ws).value.emits, key) + Project(Parse(more).value.emits, key)
  {
    ParseConcat(Idle, ws, more);
    ProjectConcat(Parse(ws).value.emits, Parse(more).value.emits, key);
  }

  // ---- Every word is accounted for ----

  /** A word on its own, or an option with the word it takes. */
  datatype Chunk = One(w: string) | Two(option: string, arg: string)

  predicate Takes(w: string) { Start(w).Ok? && !Start(w).value.next.Idle? }

  /** The chunks of a command line and the trailing option, if one is left waiting. */
  function Chunks(ws: seq<string>): (seq<Chunk>, seq<string>) {
    if ws == [] then ([], [])
    else if !Takes(ws[0]) then var (cs, t) := Chunks(ws[1..]); ([One(ws[0])] + cs, t)
    else if |ws| == 1 then ([], ws)
    else var (cs, t) := Chunks(ws[2..]); ([Two(ws[0], ws[1])] + cs, t)
  }

  function ChunkWords(c: Chunk): seq<string> {
    match c
    case One(w) => [w]
    case Two(o, a) => [o, a]
  }

  function Unchunk(cs: seq<Chunk>): seq<string> {
    if cs == [] then [] else ChunkWords(cs[0]) + Unchunk(cs[1..])
  }

  /** What a chunk stores. */
  function Emits(c: Chunk): seq<Emit> {
    match c
    case One(w) => if Start(w).Ok? then Start(w).value.emits else []
    case Two(o, a) => if Takes(o) then Start(o).value.emits + Finish(Start(o).value.next, a) else []
  }

  function AllEmits(cs: seq<Chunk>): seq<Emit> {
    if cs == [] then [] else Emits(cs[0]) + AllEmits(cs[1..])
  }

  predicate GoodChunk(c: Chunk) {
    match c
    case One(w) => w != "" && !Takes(w)
    case Two(o, _) => Takes(o)
  }

  lemma ParseOne(p: Pending, w: string)
    ensures ParseFrom(p, [w]) == Next(p, w)
  {
    var next := Next(p, w);
    assert [w][1..] == [];
    if next.Ok? {
      assert ParseFrom(next.value.next, []) == Ok(Step([], next.value.next));
      assert next.value.emits + [] == next.value.emits;
    }
  }

  lemma ParseChunk(c: Chunk)
    requires GoodChunk(c)
    ensures Parse(ChunkWords(c)) == Ok(Step(Emits(c), Idle)) && Emits(c) != []
  {
    match c {
      case One(w) => ParseOne(Idle, w);
      case Two(o, a) =>
        var step := Start(o).value;
        ParseOne(Idle, o);
        ParseOne(step.next, a);
        ParseConcat(Idle, [o], [a]);
        assert [o] + [a] == [o, a];
    }
  }

  /** What is stored for a trailing option. */
  function TrailingEmits(t: seq<string>): seq<Emit> {
    if t == ["-dylib_file"] then [Emit(LINKFLAGS, Word("-dylib_file"))] else []
  }

  ghost predicate Accounted(ws: seq<string>, cs: seq<Chunk>, t: seq<string>) {
    && ws == Unchunk(cs) + t && |t| <= 1 && (|t| == 1 ==> Takes(t[0]))
    && (Parse(ws).Err? <==> One("") in cs)
    && (Parse(ws).Ok? ==>
         && (forall c | c in cs :: GoodChunk(c) && Emits(c) != [])
         && Parse(ws).value == Step(AllEmits(cs) + TrailingEmits(t), TrailingNext(t)))
  }

  function TrailingNext(t: seq<string>): Pending {
    if |t| == 1 && Start(t[0]).Ok? then Start(t[0]).value.next else Idle
  }

  /** Putting a parsed piece in front. */
  lemma Glue(words: seq<string>, emits: seq<Emit>, ws: seq<string>, more: seq<Emit>, last: seq<Emit>, next: Pending)
    requires Parse(words) == Ok(Step(emits, Idle))
    requires Parse(ws).Ok? ==> Parse(ws).value == Step(more + last, next)
    ensures Parse(words + ws).Err? <==> Parse(ws).Err?
    ensures Parse(words + ws).Ok? ==> Parse(words + ws).value == Step((emits + more) + last, next)
  {
    ParseConcat(Idle, words, ws);
    assert emits + (more + last) == (emits + more) + last;
  }

  lemma ConsChunk(c: Chunk, cs: seq<Chunk>, t: seq<string>)
    ensures Unchunk([c] + cs) + t == ChunkWords(c) + (Unchunk(cs) + t)
    ensures AllEmits([c] + cs) == Emits(c) + AllEmits(cs)
    ensures forall d :: d in [c] + cs <==> d == c || d in cs
  {
    assert ([c] + cs)[1..] == cs;
    assert ChunkWords(c) + (Unchunk(cs) + t) == (ChunkWords(c) + Unchunk(cs)) + t;
  }

  lemma AccountedStep(c: Chunk, ws: seq<string>, cs: seq<Chunk>, t: seq<string>)
    requires Accounted(ws, cs, t) && GoodChunk(c)
    ensures Accounted(ChunkWords(c) + ws, [c] + cs, t)
  {
    ParseChunk(c);
    ConsChunk(c, cs, t);
    Glue(ChunkWords(c), Emits(c), ws, AllEmits(cs), TrailingEmits(t), TrailingNext(t));
  }

  lemma AccountedError(ws: seq<string>, cs: seq<Chunk>, t: seq<string>)
    requires Accounted(ws, cs, t)
    ensures Accounted([""] + ws, [One("")] + cs, t)
  {
    ConsChunk(One(""), cs, t);
    ParseOne(Idle, "");
    ParseConcat(Idle, [""], ws);
  }

  lemma AccountedTrailing(w: string)
    requires Takes(w)
    ensures Accounted([w], [], [w])
  {
    ParseOne(Idle, w);
    assert Unchunk([]) + [w] == [w];
    if w == "-dylib_file" {
      assert [w] == ["-dylib_file"];
    } else {
      assert [w][0] != ["-dylib_file"][0];
      assert Start(w).value.emits == [];
    }
  }

  /** Every word of a command line is in exactly one chunk, in order, or is the trailing option; what
      is stored is what the chunks store, and a trailing option stores itself only if it is
      "-dylib_file".  The only failure is an empty word where no option waits. */
  lemma {:induction false} EveryWordIsAccountedFor(ws: seq<string>)
    ensures Accounted(ws, Chunks(ws).0, Chunks(ws).1)
  {
    if ws == [] {
    } else if !Takes(ws[0]) {
      EveryWordIsAccountedFor(ws[1..]);
      var (cs, t) := Chunks(ws[1..]);
      assert ws == [ws[0]] + ws[1..];
      if ws[0] == "" { AccountedError(ws[1..], cs, t); } else { AccountedStep(One(ws[0]), ws[1..], cs, t); }
    } else if |ws| == 1 {
      AccountedTrailing(ws[0]);
      assert ws == [ws[0]];
    } else {
      EveryWordIsAccountedFor(ws[2..]);
      var (cs, t) := Chunks(ws[2..]);
      assert ws == [ws[0], ws[1]] + ws[2..];
      AccountedStep(Two(ws[0], ws[1]), ws[2..], cs, t);
    }
  }

  // ---- Spelling what is stored back into words ----

  /** The option whose argument is stored under a variable as a plain word. */
  function OptionOf(key: Key): string {
    match key
    case LIBPATH => "-L"
    case LIBS => "-l"
    case CPPPATH => "-I"
    case FRAMEWORKPATH => "-F"
    case FRAMEWORKS => "-framework"
    case _ => ""
  }

  /** A command line for what one chunk stores. */
  function Spell(g: seq<Emit>): seq<string>
    requires g != []
  {
    var f := g[0].flag;
    match g[0].key
    case RPATH => ["-Wl,-rpath=" + f.s]
    case CPPDEFINES => ["-D", if f.Valued? then f.name + "=" + f.s else f.s]
    case ASFLAGS => ["-Wa," + f.s]
    case LINKFLAGS => if |g| == 2 then ["-dylib_file", g[1].flag.s] else [f.s]
    case CCFLAGS => if f.Pair? || f.FilePair? then [f.option, f.s] else [f.s]
    case _ => if OptionOf(g[0].key) != "" && f.Word? then [OptionOf(g[0].key), f.s] else [f.s]
  }

  lemma DefineRoundTrip(text: string)
    ensures var d := Define(text);
            && (d.Valued? ==> d.name + "=" + d.s == text && '=' !in d.name)
            && (d.Word? ==> d.s == text && '=' !in text)
            && (d.Valued? || d.Word?)
  {
    var t := Split(text, '=');
    if |t| > 1 {
      JoinSplit(text, '=');
      assert Join(t, '=') == t[0] + ['='] + Join(t[1..], '=');
      PartsHaveNoSeparator(text, '=');
    }
  }

  // What the tests of `Start` come to, case by case.

  predicate WordKey(k: Key) { k.CPPFLAGS? || k.LINKFLAGS? || k.CXXFLAGS? || k.CFLAGS? || k.CCFLAGS? }

  predicate CutKey(k: Key) { k.LIBPATH? || k.LIBS? || k.CPPPATH? || k.FRAMEWORKPATH? || k.RPATH? }

  predicate Verbatim(w: string, step: Step) {
    || step == Step([Emit(LIBS, File(w))], Idle)
    || step == StoreBoth(w)
    || (step.emits != [] && step == Store(step.emits[0].key, w) &&
        WordKey(step.emits[0].key))
    || (|w| >= 4 && "-Wa," <= w && step == Step([Emit(ASFLAGS, Word(w[4..])), Emit(CCFLAGS, Word(w))], Idle))
  }

  predicate Cut(step: Step) {
    step.emits != [] && step.emits[0].flag.Word? && step == Store(step.emits[0].key, step.emits[0].flag.s) &&
    CutKey(step.emits[0].key)
  }

  lemma StartOtherShape(w: string)
    requires w != "" && StartOther(w).next.Idle?
    ensures Verbatim(w, StartOther(w)) || Cut(StartOther(w))
  {
  }

  lemma LinkerShape(w: string)
    requires "-Wa," <= w || "-Wl," <= w
    ensures Start(w).Ok? && Start(w).value.next.Idle? && (Verbatim(w, Start(w).value) || Cut(Start(w).value))
  {
    assert w[0] == '-' && w[1] == 'W';
  }

  lemma StartShape(w: string)
    requires Start(w).Ok? && Start(w).value.next.Idle?
    ensures var step := Start(w).value;
            Verbatim(w, step) || Cut(step) || (|w| >= 2 && step == Step([Emit(CPPDEFINES, Define(w[2..]))], Idle))
  {
    if w[0] !in {'-', '+'} || w == "-dylib_file" {
    } else if "-L" <= w || "-l" <= w || "-I" <= w {
      assert Cut(Start(w).value);
    } else if "-Wa," <= w || "-Wl," <= w {
      LinkerShape(w);
    } else if "-Wp," <= w || "-D" <= w {
    } else {
      StartOtherShape(w);
    }
  }

  lemma OptionShape(w: string)
    requires Takes(w)
    ensures var step := Start(w).value;
            || (step == Step([], ToDefine) && w == "-D")
            || (step == Step([Emit(LINKFLAGS, Word(w))], ToVar(LINKFLAGS)) && w == "-dylib_file")
            || (step == Step([], ToOption(w)))
            || (step.next.ToVar? && step == Step([], step.next) && OptionOf(step.next.key) != "")
  {
    if |w| >= 2 && w[2..] == "" { assert |w| == 2; }
  }

  lemma OptionWord(key: Key)
    requires OptionOf(key) != ""
    ensures Start(OptionOf(key)) == Ok(Step([], ToVar(key)))
  {
    var w := OptionOf(key);
    assert |w| == 2 ==> w[2..] == "";
    match key {
      case LIBPATH => assert w[1] == 'L';
      case LIBS => assert w[1] == 'l';
      case CPPPATH => assert w[1] == 'I';
      case FRAMEWORKPATH => assert w[1] == 'F';
      case FRAMEWORKS => assert w[1] == 'f';
    }
  }

  lemma DefineWord()
    ensures Start("-D") == Ok(Step([], ToDefine))
  {
    var w := "-D";
    assert w[2..] == "" && w[0] == '-' && w[1] == 'D';
  }

  lemma RpathWord(s: string)
    ensures Start("-Wl,-rpath=" + s) == Ok(Store(RPATH, s))
  {
    var w := "-Wl,-rpath=" + s;
    assert w[11..] == s;
    assert w[0] == '-' && w[1] == 'W' && w[2] == 'l' && w[3] == ',';
  }

  lemma SpellVerbatim(w: string, step: Step)
    requires Verbatim(w, step)
    ensures step.emits != [] && Spell(step.emits) == [w]
  {
    if |w| >= 4 && "-Wa," <= w { assert w == "-Wa," + w[4..]; }
  }

  /** Spelling what a chunk stores and parsing it again stores the same flags. */
  lemma SpellOne(w: string)
    requires GoodChunk(One(w))
    ensures Emits(One(w)) != [] && Parse(Spell(Emits(One(w)))) == Ok(Step(Emits(One(w)), Idle))
  {
    var step := Start(w).value;
    StartShape(w);
    if Verbatim(w, step) {
      SpellVerbatim(w, step);
      ParseOne(Idle, w);
    } else if Cut(step) {
      SpellCut(step);
    } else {
      SpellDefine(w[2..]);
    }
  }

  lemma SpellCut(step: Step)
    requires Cut(step)
    ensures Parse(Spell(step.emits)) == Ok(step)
  {
    var Emit(key, flag) := step.emits[0];
    if key == RPATH { ParseRpath(flag.s); } else { ParseVar(key, flag.s); }
  }

  lemma SpellDefine(text: string)
    ensures var g := [Emit(CPPDEFINES, Define(text))]; Parse(Spell(g)) == Ok(Step(g, Idle))
  {
    DefineRoundTrip(text);
    ParseDefine(text);
  }

  lemma ParseRpath(s: string)
    ensures Parse(["-Wl,-rpath=" + s]) == Ok(Store(RPATH, s))
  {
    RpathWord(s);
    ParseOne(Idle, "-Wl,-rpath=" + s);
  }

  lemma ParseTwo(o: string, emits: seq<Emit>, next: Pending, arg: string)
    requires Start(o) == Ok(Step(emits, next)) && !next.Idle?
    ensures Parse([o, arg]) == Ok(Step(emits + Finish(next, arg), Idle))
  {
    ParseOne(Idle, o);
    ParseOne(next, arg);
    ParseConcat(Idle, [o], [arg]);
    assert [o] + [arg] == [o, arg];
  }

  lemma ParseVar(key: Key, s: string)
    requires OptionOf(key) != ""
    ensures Parse([OptionOf(key), s]) == Ok(Step([Emit(key, Word(s))], Idle))
  {
    OptionWord(key);
    ParseTwo(OptionOf(key), [], ToVar(key), s);
    assert [] + Finish(ToVar(key), s) == Finish(ToVar(key), s);
  }

  lemma ParseDefine(text: string)
    ensures Parse(["-D", text]) == Ok(Step([Emit(CPPDEFINES, Define(text))], Idle))
  {
    DefineWord();
    ParseTwo("-D", [], ToDefine, text);
    assert [] + Finish(ToDefine, text) == Finish(ToDefine, text);
  }

  lemma SpellTwo(o: string, arg: string)
    requires Takes(o)
    ensures Emits(Two(o, arg)) != [] && Parse(Spell(Emits(Two(o, arg)))) == Ok(Step(Emits(Two(o, arg)), Idle))
  {
    var step := Start(o).value;
    OptionShape(o);
    if step.next.ToDefine? {
      SpellDefine(arg);
    } else if step.next.ToVar? && OptionOf(step.next.key) != "" {
      ParseVar(step.next.key, arg);
    } else {
      ParseTwo(o, step.emits, step.next, arg);
      SpellOption(o, step, arg);
    }
    assert [] + Finish(step.next, arg) == Finish(step.next, arg);
  }

  lemma SpellOption(o: string, step: Step, arg: string)
    requires step == Step([], ToOption(o)) || (o == "-dylib_file" && step == Step([Emit(LINKFLAGS, Word(o))], ToVar(LINKFLAGS)))
    ensures var g := step.emits + Finish(step.next, arg); g != [] && Spell(g) == [o, arg]
  {
    var last := Finish(step.next, arg);
    var g := step.emits + last;
    if step.emits == [] { assert g == last; } else { assert g[1] == last[0]; }
  }

  /** The canonical command line of a list of words: each stored chunk spelled back. */
  function Canonical(cs: seq<Chunk>): seq<string>
    requires forall c | c in cs :: Emits(c) != []
  {
    if cs == [] then [] else Spell(Emits(cs[0])) + Canonical(cs[1..])
  }

  lemma {:induction false} CanonicalChunks(cs: seq<Chunk>)
    requires forall c | c in cs :: GoodChunk(c) && Emits(c) != []
    ensures Parse(Canonical(cs)) == Ok(Step(AllEmits(cs), Idle))
  {
    if cs != [] {
      assert cs[0] in cs;
      match cs[0] {
        case One(w) => SpellOne(w);
        case Two(o, arg) => SpellTwo(o, arg);
      }
      CanonicalChunks(cs[1..]);
      ParseConcat(Idle, Spell(Emits(cs[0])), Canonical(cs[1..]));
    }
  }

  /** The stored flags determine a command line that parses to them again, whatever spelling they came
      from: nothing about the flags is lost except an option still waiting at the end. */
  lemma ParseOfSpelling(ws: seq<string>)
    requires Parse(ws).Ok?
    ensures var (cs, t) := Chunks(ws);
            && (forall c | c in cs :: Emits(c) != [])
            && Parse(Canonical(cs) + t) == Parse(ws)
  {
    var (cs, t) := Chunks(ws);
    EveryWordIsAccountedFor(ws);
    CanonicalChunks(cs);
    ParseConcat(Idle, Canonical(cs), t);
    if t == [] {
      assert Canonical(cs) + t == Canonical(cs);
    } else {
      assert t == [t[0]];
      AccountedTrailing(t[0]);
      assert AllEmits([]) + TrailingEmits(t) == TrailingEmits(t);
    }
    assert AllEmits(cs) + [] == AllEmits(cs);
  }

  // ---- No text is lost ----

  /** What can stand in front of a text that is stored under a variable. */
  function Prefixes(key: Key): set<string> {
    match key
    case LIBPATH => {"-L"}
    case LIBS => {"-l", ""}
    case CPPPATH => {"-I"}
    case ASFLAGS => {"-Wa,"}
    case RPATH => {"-Wl,-rpath=", "-Wl,-R,", "-Wl,-R"}
    case FRAMEWORKPATH => {"-frameworkdir=", "-F"}
    case CPPDEFINES => {"-D"}
    case _ => {""}
  }

  function TextOf(f: Flag): string { if f.Valued? then f.name + "=" + f.s else f.s }

  ghost predicate Behind(w: string, e: Emit) { exists p :: p in Prefixes(e.key) && w == p + TextOf(e.flag) }

  lemma CutBehind(w: string, p: string, e: Emit)
    requires p <= w && p in Prefixes(e.key) && TextOf(e.flag) == w[|p|..]
    ensures Behind(w, e)
  {
    assert w == p + w[|p|..];
  }

  /** Everything a word stores is the word itself, or the word without a prefix that belongs to the
      variable; for a macro, with its name and value joined again. */
  lemma NothingCut(w: string, e: Emit)
    requires GoodChunk(One(w)) && e in Start(w).value.emits
    ensures Behind(w, e)
  {
    if TextOf(e.flag) == w && "" in Prefixes(e.key) {
      CutBehind(w, "", e);
    } else if "-L" <= w || "-l" <= w || "-I" <= w {
      CutBehind(w, if "-L" <= w then "-L" else if "-l" <= w then "-l" else "-I", e);
    } else if "-Wa," <= w || "-Wl," <= w {
      LinkerCut(w, e);
    } else if "-D" <= w {
      DefineRoundTrip(w[2..]);
      CutBehind(w, "-D", e);
    } else {
      OtherCut(w, e);
    }
  }

  lemma LinkerCut(w: string, e: Emit)
    requires ("-Wa," <= w || "-Wl," <= w) && Start(w).Ok? && e in Start(w).value.emits
    ensures Behind(w, e)
  {
    assert w[0] == '-' && w[1] == 'W';
    if TextOf(e.flag) == w && "" in Prefixes(e.key) { CutBehind(w, "", e); }
    else if "-Wa," <= w { CutBehind(w, "-Wa,", e); }
    else if "-Wl,-rpath=" <= w { CutBehind(w, "-Wl,-rpath=", e); }
    else if "-Wl,-R," <= w { CutBehind(w, "-Wl,-R,", e); }
    else { CutBehind(w, "-Wl,-R", e); }
  }

  lemma OtherCut(w: string, e: Emit)
    requires w != "" && e in StartOther(w).emits && !(TextOf(e.flag) == w && "" in Prefixes(e.key))
    ensures Behind(w, e)
  {
    if "-frameworkdir=" <= w { CutBehind(w, "-frameworkdir=", e); } else { CutBehind(w, "-F", e); }
  }

  // ---- Macros: from "-D" to the renderer and back ----

  predicate MacroFlag(f: Flag) { f.Word? || f.Valued? }

  /** What `append_define` stores, as an element of CPPDEFINES. */
  function EntryOf(f: Flag): D.Entry
    requires MacroFlag(f)
  {
    if f.Valued? then D.EList([D.AStr(f.name), D.AStr(f.s)]) else D.EStr(f.s)
  }

  function EntriesOf(fs: seq<Flag>): (es: seq<D.Entry>)
    requires forall f | f in fs :: MacroFlag(f)
    ensures |es| == |fs|
  {
    if fs == [] then [] else [EntryOf(fs[0])] + EntriesOf(fs[1..])
  }

  /** Any text given to "-D", attached or as the next word, with any number of "=" in it, is rendered
      back as that text. */
  lemma DefineRendersBack(text: string)
    ensures Parse(["-D", text]) == Ok(Step([Emit(CPPDEFINES, Define(text))], Idle))
    ensures text != "" ==> Parse(["-D" + text]) == Parse(["-D", text])
    ensures MacroFlag(Define(text)) && D.RenderEntry(EntryOf(Define(text))) == Ok([text])
  {
    ParseDefine(text);
    DefineRoundTrip(text);
    if text != "" {
      AttachedDefine(text);
      ParseOne(Idle, "-D" + text);
    }
  }

  lemma AttachedDefine(text: string)
    requires text != ""
    ensures Start("-D" + text) == Ok(Step([Emit(CPPDEFINES, Define(text))], Idle))
  {
    var w := "-D" + text;
    assert w[0] == '-' && w[1] == 'D' && w[2..] == text;
  }

  /** The macro a chunk defines. */
  function DefineText(c: Chunk): seq<string> {
    match c
    case One(w) => if "-D" <= w then [w[2..]] else []
    case Two(o, arg) => if o == "-D" then [arg] else []
  }

  function DefineTexts(cs: seq<Chunk>): seq<string> {
    if cs == [] then [] else DefineText(cs[0]) + DefineTexts(cs[1..])
  }

  lemma OtherWordsDefineNothing(w: string)
    requires Start(w).Ok? && !("-D" <= w)
    ensures Project(Start(w).value.emits, CPPDEFINES) == []
    ensures Start(w).value.next != ToDefine
  {
    var step := Start(w).value;
    if step.next.Idle? {
      StartShape(w);
      ShapeDefinesNothing(w, step);
    } else {
      OptionShape(w);
      NoMacro(step.emits);
    }
  }

  lemma ShapeDefinesNothing(w: string, step: Step)
    requires Verbatim(w, step) || Cut(step)
    ensures Project(step.emits, CPPDEFINES) == []
  {
    NoMacro(step.emits);
  }

  lemma NoMacro(g: seq<Emit>)
    requires |g| <= 2 && forall i | 0 <= i < |g| :: g[i].key != CPPDEFINES
    ensures Project(g, CPPDEFINES) == []
  {
    if |g| == 2 { assert g[1..] == [g[1]] && g[1..][1..] == []; }
  }

  lemma WordDefines(w: string)
    requires GoodChunk(One(w))
    ensures Project(Emits(One(w)), CPPDEFINES) == if "-D" <= w then [Define(w[2..])] else []
  {
    if "-D" <= w {
      assert w[0] == '-' && w[1] == 'D';
      assert [Emit(CPPDEFINES, Define(w[2..]))][1..] == [];
    } else {
      OtherWordsDefineNothing(w);
    }
  }

  lemma OptionDefines(o: string, arg: string)
    requires Takes(o)
    ensures Project(Emits(Two(o, arg)), CPPDEFINES) == if o == "-D" then [Define(arg)] else []
  {
    var step := Start(o).value;
    var last := Finish(step.next, arg);
    OptionShape(o);
    ProjectConcat(step.emits, last, CPPDEFINES);
    NoMacro(step.emits);
    if step.next == ToDefine {
      assert last[1..] == [];
    } else {
      if o == "-D" { DefineWord(); }
      NoMacro(last);
    }
  }

  lemma ChunkDefines(c: Chunk)
    requires GoodChunk(c)
    ensures Project(Emits(c), CPPDEFINES) == (if DefineText(c) == [] then [] else [Define(DefineText(c)[0])])
  {
    match c {
      case One(w) => WordDefines(w);
      case Two(o, arg) => OptionDefines(o, arg);
    }
  }

  lemma {:induction false} ChunksDefine(cs: seq<Chunk>)
    requires forall c | c in cs :: GoodChunk(c)
    ensures var fs := Project(AllEmits(cs), CPPDEFINES);
            (forall f | f in fs :: MacroFlag(f)) && D.RenderAll(EntriesOf(fs)) == Ok(DefineTexts(cs))
  {
    if cs != [] {
      assert cs[0] in cs;
      var rest := Project(AllEmits(cs[1..]), CPPDEFINES);
      ChunksDefine(cs[1..]);
      ChunkDefines(cs[0]);
      ProjectConcat(Emits(cs[0]), AllEmits(cs[1..]), CPPDEFINES);
      if DefineText(cs[0]) != [] {
        ConsDefine(DefineText(cs[0])[0], rest, DefineTexts(cs[1..]));
      } else {
        assert [] + rest == rest && [] + DefineTexts(cs[1..]) == DefineTexts(cs[1..]);
      }
    }
  }

  lemma ConsDefine(text: string, rest: seq<Flag>, texts: seq<string>)
    requires (forall f | f in rest :: MacroFlag(f)) && D.RenderAll(EntriesOf(rest)) == Ok(texts)
    ensures var fs := [Define(text)] + rest;
            (forall f | f in fs :: MacroFlag(f)) && D.RenderAll(EntriesOf(fs)) == Ok([text] + texts)
  {
    DefineRendersBack(text);
    var fs := [Define(text)] + rest;
    assert fs[1..] == rest;
    var e := EntryOf(Define(text));
    C.RenderOne(e);
    D.RenderConcat([e], EntriesOf(rest));
  }

  /** The macros of a whole command line render back as the texts that followed "-D", in order. */
  lemma MacrosRenderBack(ws: seq<string>)
    requires Parse(ws).Ok?
    ensures var fs := Project(Parse(ws).value.emits, CPPDEFINES);
            (forall f | f in fs :: MacroFlag(f)) && D.RenderAll(EntriesOf(fs)) == Ok(DefineTexts(Chunks(ws).0))
  {
    var (cs, t) := Chunks(ws);
    EveryWordIsAccountedFor(ws);
    ChunksDefine(cs);
    ProjectConcat(AllEmits(cs), TrailingEmits(t), CPPDEFINES);
    NoMacro(TrailingEmits(t));
    assert Project(AllEmits(cs), CPPDEFINES) + [] == Project(AllEmits(cs), CPPDEFINES);
  }

  /** Appending the parsed macros to an existing CPPDEFINES adds exactly those texts to what it
      renders to. */
  lemma ParsedMacrosAppend(f: D.Form, ws: seq<string>, deleteExisting: bool)
    requires Parse(ws).Ok? && D.Render(f).Ok? && !f.FOther?
    ensures var fs := Project(Parse(ws).value.emits, CPPDEFINES);
            && (forall g | g in fs :: MacroFlag(g))
            && var o := C.AddDefines(Some(f), D.FList(EntriesOf(fs)), C.Mode(false, false, deleteExisting));
               && o.error.None? && o.form.Some?
               && D.Render(o.form.value) == Ok(D.Render(f).value + DefineTexts(Chunks(ws).0))
  {
    MacrosRenderBack(ws);
    var fs := Project(Parse(ws).value.emits, CPPDEFINES);
    C.AppendCommutesExactly(f, D.FList(EntriesOf(fs)), C.Mode(false, false, deleteExisting));
  }

  // ---- Several arguments ----

  /** An argument of `ParseFlags`: the words of one string, or a list of arguments. */
  datatype Arg = Text(words: seq<string>) | Several(args: seq<Arg>)

  /** What an argument stores.  Every string starts with no option waiting. */
  function ParseArg(a: Arg): Result<seq<Emit>, Error>
    decreases a, 0
  {
    match a
    case Text(words) => (match Parse(words) case Err(e) => Err(e) case Ok(step) => Ok(step.emits))
    case Several(args) => ParseFirst(args, |args|)
  }

  function ParseFirst(args: seq<Arg>, n: nat): Result<seq<Emit>, Error>
    requires n <= |args|
    decreases args, n
  {
    if n == 0 then Ok([])
    else Then(ParseFirst(args, n - 1), ParseArg(args[n - 1]))
  }

  function Then(x: Result<seq<Emit>, Error>, y: Result<seq<Emit>, Error>): Result<seq<Emit>, Error> {
    if x.Err? then x else if y.Err? then y else Ok(x.value + y.value)
  }

  /** The strings of an argument, from left to right. */
  function Leaves(a: Arg): seq<seq<string>>
    decreases a, 0
  {
    match a
    case Text(words) => [words]
    case Several(args) => LeavesOf(args, |args|)
  }

  function LeavesOf(args: seq<Arg>, n: nat): seq<seq<string>>
    requires n <= |args|
    decreases args, n
  {
    if n == 0 then [] else LeavesOf(args, n - 1) + Leaves(args[n - 1])
  }

  function ParseLeaves(ls: seq<seq<string>>): Result<seq<Emit>, Error> {
    if ls == [] then Ok([]) else Then(ParseLeaves(ls[..|ls| - 1]), ParseArg(Text(ls[|ls| - 1])))
  }

  lemma ThenAssociative(x: Result<seq<Emit>, Error>, y: Result<seq<Emit>, Error>, z: Result<seq<Emit>, Error>)
    ensures Then(Then(x, y), z) == Then(x, Then(y, z))
  {
    if x.Ok? && y.Ok? && z.Ok? { assert (x.value + y.value) + z.value == x.value + (y.value + z.value); }
  }

  lemma {:induction false} ParseLeavesConcat(a: seq<seq<string>>, b: seq<seq<string>>)
    ensures ParseLeaves(a + b) == Then(ParseLeaves(a), ParseLeaves(b))
  {
    var x := ParseLeaves(a);
    if b == [] {
      assert a + b == a;
      if x.Ok? { assert x.value + [] == x.value; }
    } else {
      var n := |b| - 1;
      assert (a + b)[..|a + b| - 1] == a + b[..n] && (a + b)[|a + b| - 1] == b[n];
      ParseLeavesConcat(a, b[..n]);
      ThenAssociative(x, ParseLeaves(b[..n]), ParseArg(Text(b[n])));
    }
  }

  /** How arguments are nested does not matter, only their strings from left to right. */
  lemma {:induction false} NestingIrrelevant(a: Arg)
    ensures ParseArg(a) == ParseLeaves(Leaves(a))
    decreases a, 0
  {
    match a {
      case Text(words) =>
        assert [words][..0] == [];
        if ParseArg(a).Ok? { assert [] + ParseArg(a).value == ParseArg(a).value; }
      case Several(args) => NestingIrrelevantFirst(args, |args|);
    }
  }

  lemma {:induction false} NestingIrrelevantFirst(args: seq<Arg>, n: nat)
    requires n <= |args|
    ensures ParseFirst(args, n) == ParseLeaves(LeavesOf(args, n))
    decreases args, n
  {
    if n > 0 {
      NestingIrrelevantFirst(args, n - 1);
      NestingIrrelevant(args[n - 1]);
      ParseLeavesConcat(LeavesOf(args, n - 1), Leaves(args[n - 1]));
    }
  }

  /** Two strings can be joined into one, whatever the second is, exactly when the first leaves no
      option waiting: an option never takes its argument from the next string. */
  lemma JoinExactly(ws: seq<string>)
    requires Parse(ws).Ok?
    ensures Parse(ws).value.next.Idle? <==>
            forall more :: ParseArg(Text(ws + more)) == Then(ParseArg(Text(ws)), ParseArg(Text(more)))
  {
    DistributesExactly(ws);
    if !Parse(ws).value.next.Idle? {
      WaitingTakesTheNextWord(ws, "x");
      ParseOne(Idle, "x");
      var last := Finish(Parse(ws).value.next, "x");
      assert last[0] != Emit(LIBS, File("x"));
      var e := Parse(ws).value.emits;
      assert (e + last)[|e|] == last[0] && (e + [Emit(LIBS, File("x"))])[|e|] == Emit(LIBS, File("x"));
      assert ParseArg(Text(ws + ["x"])) != Then(ParseArg(Text(ws)), ParseArg(Text(["x"])));
    }
  }

  // ---- The code ----

  ghost predicate Full(mapping: map<Key, seq<Flag>>) { forall k: Key :: k in mapping }

  /** The flags of a log appended to a mapping. */
  ghost predicate Extends(before: map<Key, seq<Flag>>, log: seq<Emit>, after: map<Key, seq<Flag>>) {
    Full(before) && Full(after) && forall k: Key :: after[k] == before[k] + Project(log, k)
  }

  lemma ExtendsThen(a: map<Key, seq<Flag>>, x: seq<Emit>, b: map<Key, seq<Flag>>, y: seq<Emit>, c: map<Key, seq<Flag>>)
    requires Extends(a, x, b) && Extends(b, y, c)
    ensures Extends(a, x + y, c)
  {
    forall k: Key ensures c[k] == a[k] + Project(x + y, k) {
      ProjectConcat(x, y, k);
      calc {
        c[k];
        b[k] + Project(y, k);
        (a[k] + Project(x, k)) + Project(y, k);
        a[k] + (Project(x, k) + Project(y, k));
      }
    }
  }

  /** One call of `ParseFlags`, with the dictionary it fills. */
  class FlagParser {
    var mapping: map<Key, seq<Flag>>

    constructor ()
      ensures Full(mapping) && forall k: Key :: mapping[k] == []
    {
      mapping := map[
        ASFLAGS := [], CFLAGS := [], CCFLAGS := [], CXXFLAGS := [], CPPDEFINES := [], CPPFLAGS := [],
        CPPPATH := [], FRAMEWORKPATH := [], FRAMEWORKS := [], LIBPATH := [], LIBS := [], LINKFLAGS := [],
        RPATH := []];
      new;
      forall k: Key ensures k in mapping && mapping[k] == [] {
        match k {
          case ASFLAGS => case CFLAGS => case CCFLAGS => case CXXFLAGS => case CPPDEFINES => case CPPFLAGS =>
          case CPPPATH => case FRAMEWORKPATH => case FRAMEWORKS => case LIBPATH => case LIBS => case LINKFLAGS =>
          case RPATH =>
        }
      }
    }

    method Append(key: Key, flag: Flag)
      requires Full(mapping)
      modifies this
      ensures Extends(old(mapping), [Emit(key, flag)], mapping)
    {
      mapping := mapping[key := mapping[key] + [flag]];
      assert [Emit(key, flag)][1..] == [];
    }

    method AppendTwo(key: Key, flag: Flag, key': Key, flag': Flag)
      requires Full(mapping)
      modifies this
      ensures Extends(old(mapping), [Emit(key, flag), Emit(key', flag')], mapping)
    {
      Append(key, flag);
      ghost var between := mapping;
      Append(key', flag');
      assert [Emit(key, flag)] + [Emit(key', flag')] == [Emit(key, flag), Emit(key', flag')];
      ExtendsThen(old(mapping), [Emit(key, flag)], between, [Emit(key', flag')], mapping);
    }

    /** A word that is the argument of a waiting option. */
    method SecondWord(waiting: Pending, w: string)
      requires Full(mapping) && !waiting.Idle?
      modifies this
      ensures Extends(old(mapping), Finish(waiting, w), mapping)
    {
      match waiting {
        case ToDefine => Append(CPPDEFINES, Define(w));
        case ToVar(key) => Append(key, Word(w));
        case ToOption(o) =>
          if o == "-include" || o == "-imacros" {
            Append(CCFLAGS, FilePair(o, w));
          } else if o == "-isysroot" || o == "-arch" {
            AppendTwo(CCFLAGS, Pair(o, w), LINKFLAGS, Pair(o, w));
          } else {
            Append(CCFLAGS, Pair(o, w));
          }
      }
    }

    method AttachedWord(w: string, key: Key) returns (next: Pending)
      requires Full(mapping) && |w| >= 2
      modifies this
      ensures Extends(old(mapping), Attached(w, key).emits, mapping) && next == Attached(w, key).next
    {
      next := Idle;
      if w[2..] != "" { Append(key, Word(w[2..])); } else { next := ToVar(key); }
    }

    method LinkerWord(w: string)
      requires Full(mapping) && "-Wl," <= w
      modifies this
      ensures Extends(old(mapping), Start(w).value.emits, mapping) && Start(w).value.next == Idle
    {
      assert w[0] == '-' && w[1] == 'W' && w[2] == 'l';
      if "-Wl,-rpath=" <= w { Append(RPATH, Word(w[11..])); }
      else if "-Wl,-R," <= w { Append(RPATH, Word(w[7..])); }
      else if "-Wl,-R" <= w { Append(RPATH, Word(w[6..])); }
      else { Append(LINKFLAGS, Word(w)); }
    }

    /** A word met while no option waits. */
    method FirstWord(w: string) returns (next: Pending, error: Option<Error>)
      requires Full(mapping)
      modifies this
      ensures Full(mapping) && error.Some? == Start(w).Err?
      ensures error.None? ==> Extends(old(mapping), Start(w).value.emits, mapping) && next == Start(w).value.next
    {
      next, error := Idle, None;
      if w == "" { return Idle, Some(IndexError); }
      if w[0] !in {'-', '+'} { Append(LIBS, File(w)); }
      else if w == "-dylib_file" { Append(LINKFLAGS, Word(w)); next := ToVar(LINKFLAGS); }
      else if "-L" <= w { next := AttachedWord(w, LIBPATH); }
      else if "-l" <= w { next := AttachedWord(w, LIBS); }
      else if "-I" <= w { next := AttachedWord(w, CPPPATH); }
      else if "-Wa," <= w { AppendTwo(ASFLAGS, Word(w[4..]), CCFLAGS, Word(w)); }
      else if "-Wl," <= w { LinkerWord(w); }
      else if "-Wp," <= w { Append(CPPFLAGS, Word(w)); }
      else if "-D" <= w {
        if w[2..] != "" { Append(CPPDEFINES, Define(w[2..])); } else { next := ToDefine; }
      } else {
        next := OtherWord(w);
      }
    }

    method OtherWord(w: string) returns (next: Pending)
      requires Full(mapping) && w != ""
      modifies this
      ensures Extends(old(mapping), StartOther(w).emits, mapping) && next == StartOther(w).next
    {
      next := Idle;
      if w == "-framework" { next := ToVar(FRAMEWORKS); }
      else if "-frameworkdir=" <= w { Append(FRAMEWORKPATH, Word(w[14..])); }
      else if "-F" <= w { next := AttachedWord(w, FRAMEWORKPATH); }
      else if w in BOTH || "-fsanitize" <= w { AppendTwo(CCFLAGS, Word(w), LINKFLAGS, Word(w)); }
      else if w == "-mwindows" { Append(LINKFLAGS, Word(w)); }
      else if "-std=" <= w {
        var key := if HasPlusPlus(w[5..]) then CXXFLAGS else CFLAGS;
        Append(key, Word(w));
      }
      else if "-stdlib=" <= w { Append(CXXFLAGS, Word(w)); }
      else if w[0] == '+' { AppendTwo(CCFLAGS, Word(w), LINKFLAGS, Word(w)); }
      else if w in OPTIONS { next := ToOption(w); }
      else { Append(CCFLAGS, Word(w)); }
    }

    /** The loop over the words of one string. */
    method ParseWords(params: seq<string>) returns (error: Option<Error>)
      requires Full(mapping)
      modifies this
      ensures Full(mapping) && error.Some? == Parse(params).Err?
      ensures error.None? ==> Extends(old(mapping), Parse(params).value.emits, mapping)
    {
      var waiting := Idle;
      var i := 0;
      ghost var log: seq<Emit> := [];
      while i < |params|
        invariant 0 <= i <= |params| && Extends(old(mapping), log, mapping)
        invariant Parse(params[..i]) == Ok(Step(log, waiting))
      {
        var w := params[i];
        ghost var before := mapping;
        assert params[..i + 1] == params[..i] + [w];
        ParseConcat(Idle, params[..i], [w]);
        ParseOne(waiting, w);
        ghost var emits: seq<Emit> := [];
        if waiting.Idle? {
          waiting, error := FirstWord(w);
          if error.Some? {
            assert params == params[..i + 1] + params[i + 1..];
            ParseConcat(Idle, params[..i + 1], params[i + 1..]);
            return;
          }
          emits := Start(w).value.emits;
        } else {
          emits := Finish(waiting, w);
          SecondWord(waiting, w);
          waiting := Idle;
        }
        ExtendsThen(old(mapping), log, before, emits, mapping);
        log := log + emits;
        i := i + 1;
      }
      assert params[..i] == params;
      error := None;
    }

    /** `do_parse`. */
    method DoParse(arg: Arg) returns (error: Option<Error>)
      requires Full(mapping)
      modifies this
      ensures Full(mapping) && error.Some? == ParseArg(arg).Err?
      ensures error.None? ==> Extends(old(mapping), ParseArg(arg).value, mapping)
      decreases arg
    {
      match arg {
        case Text(words) => error := ParseWords(words);
        case Several(args) =>
          var i := 0;
          ghost var log: seq<Emit> := [];
          while i < |args|
            invariant 0 <= i <= |args| && Extends(old(mapping), log, mapping)
            invariant ParseFirst(args, i) == Ok(log)
          {
            ghost var before := mapping;
            error := DoParse(args[i]);
            if error.Some? {
              FirstErrorStays(args, i + 1);
              return;
            }
            ExtendsThen(old(mapping), log, before, ParseArg(args[i]).value, mapping);
            log := log + ParseArg(args[i]).value;
            i := i + 1;
          }
          error := None;
      }
    }
  }

  lemma {:induction false} FirstErrorStays(args: seq<Arg>, n: nat)
    requires n <= |args| && ParseFirst(args, n).Err?
    ensures ParseFirst(args, |args|).Err?
    decreases |args| - n
  {
    if n < |args| { FirstErrorStays(args, n + 1); }
  }

  /** `ParseFlags`: the dictionary it returns holds, for every variable, what the arguments store under
      it, in order. */
  method ParseFlags(flags: seq<Arg>) returns (mapping: map<Key, seq<Flag>>, error: Option<Error>)
    ensures error.Some? <==> ParseArg(Several(flags)).Err?
    ensures error.None? ==> forall k: Key :: k in mapping && mapping[k] == Project(ParseArg(Several(flags)).value, k)
  {
    var parser := new FlagParser();
    ghost var empty := parser.mapping;
    error := parser.DoParse(Several(flags));
    mapping := parser.mapping;
    if error.None? {
      forall k: Key ensures k in mapping && mapping[k] == Project(ParseArg(Several(flags)).value, k) {
        assert empty[k] + Project(ParseArg(Several(flags)).value, k) == Project(ParseArg(Several(flags)).value, k);
      }
    }
  }
}
