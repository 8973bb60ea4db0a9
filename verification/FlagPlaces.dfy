/** Where the words of a command line go: a table of the kinds of words, and the variables they are
    stored under, against the chain of tests in `ParseFlags`. */
module FlagPlaces {
  import opened Std
  import opened Strings
  import opened ParseFlags

  // ---- The table ----

  datatype Kind =
    | Library | LibraryName | LibraryPath | IncludePath | Macro
    | Assembler | Preprocessor | Linker | RunPathIs | RunPathComma | RunPathAttached
    | FrameworkDir | FrameworkPath | Both | Windows | CStandard | CxxStandard | CxxLibrary
    | Waits | Mapped | Compiler

  /** What marks the words of each kind; the rest are options for the compiler. */
  predicate Marked(k: Kind, w: string) {
    match k
    case Library => w != "" && w[0] != '-' && w[0] != '+'
    case LibraryName => "-l" <= w && |w| > 2
    case LibraryPath => "-L" <= w && |w| > 2
    case IncludePath => "-I" <= w && |w| > 2
    case Macro => "-D" <= w && |w| > 2
    case FrameworkPath => "-F" <= w && |w| > 2
    case FrameworkDir => "-frameworkdir=" <= w
    case Assembler => "-Wa," <= w
    case Preprocessor => "-Wp," <= w
    case RunPathIs => "-Wl,-rpath=" <= w
    case RunPathComma => "-Wl,-R," <= w
    case RunPathAttached => "-Wl,-R" <= w && !("-Wl,-R," <= w)
    case Linker => "-Wl," <= w && !("-Wl,-rpath=" <= w) && !("-Wl,-R" <= w)
    case Both =>
      w in {"-mno-cygwin", "-pthread", "-openmp", "-fmerge-all-constants", "-fopenmp"} || "-fsanitize" <= w || "+" <= w
    case Windows => w == "-mwindows"
    case CStandard => "-std=" <= w && !HasPlusPlus(w)
    case CxxStandard => "-std=" <= w && HasPlusPlus(w)
    case CxxLibrary => "-stdlib=" <= w
    case Mapped => w == "-dylib_file"
    case Waits =>
      w in {"-L", "-l", "-I", "-D", "-F", "-framework", "-include", "-imacros", "-isysroot", "-isystem", "-iquote",
            "-idirafter", "-arch", "--param"}
    case Compiler => false
  }

  ghost predicate Is(k: Kind, w: string) {
    Marked(k, w) || (k == Compiler && forall j :: !Marked(j, w))
  }

  /** The variables a word of each kind is stored under. */
  function KeysOf(k: Kind): seq<Key> {
    match k
    case Library | LibraryName => [LIBS]
    case LibraryPath => [LIBPATH]
    case IncludePath => [CPPPATH]
    case Macro => [CPPDEFINES]
    case FrameworkDir | FrameworkPath => [FRAMEWORKPATH]
    case Assembler => [ASFLAGS, CCFLAGS]
    case Preprocessor => [CPPFLAGS]
    case RunPathIs | RunPathComma | RunPathAttached => [RPATH]
    case Linker | Windows | Mapped => [LINKFLAGS]
    case Both => [CCFLAGS, LINKFLAGS]
    case CStandard => [CFLAGS]
    case CxxStandard | CxxLibrary => [CXXFLAGS]
    case Waits => []
    case Compiler => [CCFLAGS]
  }

  /** How many characters in front of what is stored are left out. */
  function CutOf(k: Kind, key: Key): nat {
    match k
    case LibraryName | LibraryPath | IncludePath | Macro | FrameworkPath => 2
    case FrameworkDir => 14
    case Assembler => if key.ASFLAGS? then 4 else 0
    case RunPathIs => 11
    case RunPathComma => 7
    case RunPathAttached => 6
    case _ => 0
  }

  /** A macro is stored as its name, or as its name and its value if there is an "=". */
  function MacroFlag(text: string): Flag {
    if '=' in text then Valued(text[..FirstEquals(text)], text[FirstEquals(text) + 1..]) else Word(text)
  }

  function FirstEquals(text: string): (i: nat)
    requires '=' in text
    ensures i < |text| && text[i] == '=' && '=' !in text[..i]
  {
    if text[0] == '=' then 0
    else
      assert text == [text[0]] + text[1..];
      var i := 1 + FirstEquals(text[1..]);
      assert text[..i] == [text[0]] + text[1..][..i - 1];
      i
  }

  function FlagOf(k: Kind, w: string, key: Key): Flag {
    var text := if CutOf(k, key) <= |w| then w[CutOf(k, key)..] else "";
    if k.Library? then File(text) else if k.Macro? then MacroFlag(text) else Word(text)
  }

  // ---- Every word is of one kind ----

  /** The first characters tell the kinds apart. */
  lemma Letters(w: string)
    ensures "-L" <= w ==> |w| >= 2 && w[0] == '-' && w[1] == 'L'
    ensures "-l" <= w ==> |w| >= 2 && w[0] == '-' && w[1] == 'l'
    ensures "-I" <= w ==> |w| >= 2 && w[0] == '-' && w[1] == 'I'
    ensures "-D" <= w ==> |w| >= 2 && w[0] == '-' && w[1] == 'D'
    ensures w == "-dylib_file" ==> |w| == 11 && w[0] == '-' && w[1] == 'd'
    ensures "-Wa," <= w ==> |w| >= 4 && w[0] == '-' && w[1] == 'W' && w[2] == 'a'
    ensures "-Wp," <= w ==> |w| >= 4 && w[0] == '-' && w[1] == 'W' && w[2] == 'p'
    ensures "-Wl," <= w ==> |w| >= 4 && w[0] == '-' && w[1] == 'W' && w[2] == 'l'
    ensures "-Wl,-R" <= w ==> "-Wl," <= w && |w| >= 6 && w[5] == 'R'
    ensures "-Wl,-R," <= w ==> "-Wl,-R" <= w && |w| >= 7
    ensures "-Wl,-rpath=" <= w ==> "-Wl," <= w && |w| >= 11 && w[5] == 'r'
    ensures "-std=" <= w ==> |w| >= 5 && w[0] == '-' && w[1] == 's' && w[4] == '='
    ensures "-stdlib=" <= w ==> |w| >= 8 && w[0] == '-' && w[1] == 's' && w[4] == 'l'
    ensures "-frameworkdir=" <= w ==> |w| >= 14 && w[0] == '-' && w[1] == 'f' && w[2] == 'r'
    ensures "-fsanitize" <= w ==> |w| >= 10 && w[0] == '-' && w[1] == 'f' && w[2] == 's'
  {
    if "-Wl,-R," <= w { assert "-Wl,-R" == "-Wl,-R,"[..6] == w[..7][..6]; }
    if "-Wl,-R" <= w { assert "-Wl," == "-Wl,-R"[..4] == w[..6][..4]; }
    if "-Wl,-rpath=" <= w { assert "-Wl," == "-Wl,-rpath="[..4] == w[..11][..4]; }
  }

  /** What the table says of a word. */
  function Row(k: Kind, w: string): (g: seq<Emit>)
    ensures |g| == |KeysOf(k)| && forall i | 0 <= i < |g| :: g[i] == Emit(KeysOf(k)[i], FlagOf(k, w, KeysOf(k)[i]))
  {
    seq(|KeysOf(k)|, i requires 0 <= i < |KeysOf(k)| => Emit(KeysOf(k)[i], FlagOf(k, w, KeysOf(k)[i])))
  }

  /** The chain of tests does with the word what the table says. */
  predicate StartsAs(w: string, k: Kind) {
    Start(w).Ok? && Start(w).value.emits == Row(k, w) && Start(w).value.next == if k.Mapped? then ToVar(LINKFLAGS) else Idle
  }

  predicate Early(k: Kind) {
    k.Library? || k.LibraryName? || k.LibraryPath? || k.IncludePath? || k.Macro? || k.Assembler? || k.Preprocessor? ||
    k.Linker? || k.RunPathIs? || k.RunPathComma? || k.RunPathAttached? || k.Mapped?
  }

  lemma EarlyRow(w: string, k: Kind)
    requires Marked(k, w) && Early(k)
    ensures StartsAs(w, k)
  {
    match k {
      case Macro => MacroRow(w);
      case Assembler | Preprocessor => AssemblerRow(w, k);
      case LibraryName | LibraryPath | IncludePath => AttachedRow(w, k);
      case Library => LibraryRow(w);
      case Mapped => MappedRow(w);
      case _ => LinkerRow(w, k);
    }
  }

  lemma LibraryRow(w: string)
    requires Marked(Library, w)
    ensures StartsAs(w, Library)
  {}

  lemma MappedRow(w: string)
    requires Marked(Mapped, w)
    ensures StartsAs(w, Mapped)
  {}

  lemma MacroRow(w: string)
    requires Marked(Macro, w)
    ensures StartsAs(w, Macro)
  {
    Letters(w);
    DefineIs(w[2..]);
  }

  lemma AssemblerRow(w: string, k: Kind)
    requires Marked(k, w) && (k.Assembler? || k.Preprocessor?)
    ensures StartsAs(w, k)
  {
    Letters(w);
  }

  lemma AttachedRow(w: string, k: Kind)
    requires Marked(k, w) && (k.LibraryName? || k.LibraryPath? || k.IncludePath?)
    ensures StartsAs(w, k)
  {
    Letters(w);
  }

  lemma LinkerRow(w: string, k: Kind)
    requires Marked(k, w) && (k.Linker? || k.RunPathIs? || k.RunPathComma? || k.RunPathAttached?)
    ensures StartsAs(w, k)
  {
    Letters(w);
  }

  lemma DefineIs(text: string)
    ensures Define(text) == MacroFlag(text)
  {
    if '=' in text {
      var i := FirstEquals(text);
      assert text == text[..i] + ['='] + text[i + 1..];
      SplitAppend(text[..i], '=', text[i + 1..]);
      JoinSplit(text[i + 1..], '=');
      assert ([text[..i]] + Split(text[i + 1..], '='))[1..] == Split(text[i + 1..], '=');
    }
  }

  lemma PlusPlus(w: string)
    requires "-std=" <= w
    ensures HasPlusPlus(w[5..]) <==> HasPlusPlus(w)
  {
    if i :| 0 <= i < |w| - 1 && w[i] == '+' && w[i + 1] == '+' { assert w[5..][i - 5] == '+' && w[5..][i - 4] == '+'; }
    if i :| 0 <= i < |w[5..]| - 1 && w[5..][i] == '+' && w[5..][i + 1] == '+' { assert w[i + 5] == '+' && w[i + 6] == '+'; }
  }

  /** None of the tests up to the one for "-D" is for this word. */
  predicate Left(w: string) {
    && w != "" && (w[0] == '-' || w[0] == '+') && w != "-dylib_file"
    && !("-L" <= w) && !("-l" <= w) && !("-I" <= w) && !("-D" <= w)
    && !("-Wa," <= w) && !("-Wl," <= w) && !("-Wp," <= w)
  }

  lemma BothLetters(w: string)
    requires Marked(Both, w)
    ensures w[0] == '+' || (w[0] == '-' && |w| > 6)
    ensures w[0] == '-' ==> w[1] == 'm' || w[1] == 'p' || w[1] == 'o' || w[1] == 'f'
    ensures w[0] == '-' ==> if w[1] == 'm' then w[2] == 'n' else w[2] == 't' || w[2] == 'p' || w[2] == 's' || w[2] == 'm' || w[2] == 'o'
  {}

  lemma LateLeft(w: string, k: Kind)
    requires Marked(k, w) && !Early(k) && !k.Waits?
    ensures Left(w)
  {
    match k {
      case Both => BothLetters(w);
      case Windows | FrameworkPath => OtherLetters(w);
      case _ => Letters(w);
    }
  }

  lemma OtherLetters(w: string)
    ensures w == "-framework" ==> |w| == 10 && w[0] == '-' && w[1] == 'f' && w[2] == 'r'
    ensures w in BOTH ==> |w| > 6 && w[0] == '-'
    ensures w in BOTH ==> w[1] == 'p' || w[1] == 'o' || (w[1] == 'm' && w[2] == 'n') || (w[1] == 'f' && (w[2] == 'm' || w[2] == 'o'))
    ensures w == "-mwindows" ==> |w| > 6 && w[0] == '-' && w[1] == 'm' && w[2] == 'w'
    ensures w in OPTIONS ==> |w| >= 5 && w[0] == '-' && (w[1] == 'i' || w[1] == 'a' || w[1] == '-')
    ensures "-F" <= w ==> |w| >= 2 && w[0] == '-' && w[1] == 'F'
  {}

  lemma LateRow(w: string, k: Kind)
    requires Marked(k, w) && !Early(k) && !k.Waits? && Left(w)
    ensures StartsAs(w, k)
  {
    match k {
      case Both => BothRow(w);
      case FrameworkDir => FrameworkDirRow(w);
      case FrameworkPath => FrameworkPathRow(w);
      case Windows => WindowsRow(w);
      case CxxLibrary => CxxLibraryRow(w);
      case _ => StandardRow(w, k);
    }
  }

  lemma BothRow(w: string)
    requires Marked(Both, w) && Left(w)
    ensures StartOther(w).emits == Row(Both, w) && StartOther(w).next.Idle?
  {
    BothStored(w);
    assert Row(Both, w)[0] == Emit(CCFLAGS, Word(w)) && Row(Both, w)[1] == Emit(LINKFLAGS, Word(w));
  }

  lemma BothStored(w: string)
    requires Marked(Both, w) && Left(w)
    ensures StartOther(w) == StoreBoth(w)
  {
    BothLetters(w);
    Letters(w);
    assert w[0] != '+' ==> w in BOTH || "-fsanitize" <= w;
    assert w != "-framework";
    assert !("-frameworkdir=" <= w) && !("-F" <= w);
    assert w != "-mwindows" && !("-std=" <= w) && !("-stdlib=" <= w);
  }

  lemma FrameworkDirRow(w: string)
    requires Marked(FrameworkDir, w)
    ensures StartOther(w).emits == Row(FrameworkDir, w) && StartOther(w).next.Idle?
  {
    Letters(w);
  }

  lemma FrameworkPathRow(w: string)
    requires Marked(FrameworkPath, w)
    ensures StartOther(w).emits == Row(FrameworkPath, w) && StartOther(w).next.Idle?
  {
    Letters(w);
    OtherLetters(w);
    assert w != "-framework" && !("-frameworkdir=" <= w);
  }

  lemma WindowsRow(w: string)
    requires Marked(Windows, w)
    ensures StartOther(w).emits == Row(Windows, w) && StartOther(w).next.Idle?
  {
    Letters(w);
    OtherLetters(w);
    assert w != "-framework" && !("-frameworkdir=" <= w) && !("-F" <= w) && w !in BOTH && !("-fsanitize" <= w);
  }

  lemma CxxLibraryRow(w: string)
    requires Marked(CxxLibrary, w)
    ensures StartOther(w).emits == Row(CxxLibrary, w) && StartOther(w).next.Idle?
  {
    Letters(w);
    OtherLetters(w);
    assert w != "-framework" && !("-frameworkdir=" <= w) && !("-F" <= w) && w !in BOTH && !("-fsanitize" <= w);
    assert w != "-mwindows" && !("-std=" <= w);
  }

  lemma StandardRow(w: string, k: Kind)
    requires Marked(k, w) && (k.CStandard? || k.CxxStandard?)
    ensures StartOther(w).emits == Row(k, w) && StartOther(w).next.Idle?
  {
    Letters(w);
    OtherLetters(w);
    PlusPlus(w);
    assert w != "-framework" && !("-frameworkdir=" <= w) && !("-F" <= w) && w !in BOTH && !("-fsanitize" <= w);
    assert w != "-mwindows";
  }

  /** A word that nothing marks is an option for the compiler. */
  lemma CompilerLeft(w: string)
    requires w != "" && forall j :: !Marked(j, w)
    ensures Left(w) && w != "-framework" && !("-F" <= w) && w !in OPTIONS
  {
    assert !Marked(Library, w) && !Marked(LibraryName, w) && !Marked(LibraryPath, w) && !Marked(IncludePath, w);
    assert !Marked(Macro, w) && !Marked(FrameworkPath, w) && !Marked(Assembler, w) && !Marked(Preprocessor, w);
    assert !Marked(Linker, w) && !Marked(RunPathIs, w) && !Marked(RunPathAttached, w) && !Marked(RunPathComma, w);
    assert !Marked(Mapped, w) && !Marked(Waits, w);
    TwoLetters(w);
  }

  lemma TwoLetters(w: string)
    ensures "-L" <= w ==> |w| > 2 || w == "-L"
    ensures "-l" <= w ==> |w| > 2 || w == "-l"
    ensures "-I" <= w ==> |w| > 2 || w == "-I"
    ensures "-D" <= w ==> |w| > 2 || w == "-D"
    ensures "-F" <= w ==> |w| > 2 || w == "-F"
  {}

  lemma CompilerRow(w: string)
    requires w != "" && forall j :: !Marked(j, w)
    ensures StartsAs(w, Compiler)
  {
    CompilerStored(w);
    assert Row(Compiler, w)[0] == Emit(CCFLAGS, Word(w));
  }

  lemma CompilerStored(w: string)
    requires w != "" && forall j :: !Marked(j, w)
    ensures Start(w) == Ok(Store(CCFLAGS, w))
  {
    CompilerLeft(w);
    assert !Marked(FrameworkDir, w) && !Marked(Both, w) && !Marked(Windows, w) && !Marked(CxxLibrary, w);
    assert !Marked(CStandard, w) && !Marked(CxxStandard, w);
    assert w[0] == '+' ==> "+" <= w;
  }

  /** Every word but the empty one is of some kind, and is treated as the table says of any kind it is of;
      so the order of the tests does not matter. */
  lemma WordStarts(w: string, k: Kind)
    requires w != "" && Is(k, w) && !k.Waits?
    ensures StartsAs(w, k)
  {
    if k.Compiler? { CompilerRow(w); } else if Early(k) { EarlyRow(w, k); } else { LateLeft(w, k); LateRow(w, k); }
  }

  // ---- What is stored where ----

  lemma ProjectOne(e: Emit, key: Key)
    ensures Project([e], key) == if e.key == key then [e.flag] else []
  {
    assert [e][1..] == [];
  }

  lemma ProjectTwo(g: seq<Emit>, key: Key)
    requires |g| == 2
    ensures Project(g, key) == (if g[0].key == key then [g[0].flag] else []) + (if g[1].key == key then [g[1].flag] else [])
  {
    ProjectOne(g[1], key);
    assert g[1..] == [g[1]];
  }

  lemma ProjectRow(k: Kind, w: string, key: Key)
    ensures Project(Row(k, w), key) == if key in KeysOf(k) then [FlagOf(k, w, key)] else []
  {
    var g := Row(k, w);
    if |g| == 2 {
      ProjectTwo(g, key);
    } else if |g| == 1 {
      assert g == [g[0]];
      ProjectOne(g[0], key);
    }
  }

  /** What a word stores under a variable: the table's entry for the kind of the word. */
  ghost function Stored(w: string, key: Key): seq<Flag> {
    if exists k :: Is(k, w) && key in KeysOf(k) then
      var k :| Is(k, w) && key in KeysOf(k);
      [FlagOf(k, w, key)]
    else []
  }

  lemma KindOf(w: string) returns (k: Kind)
    ensures Is(k, w)
  {
    if j :| Marked(j, w) { k := j; } else { k := Compiler; }
  }

  /** A word of any kind that does not wait is stored under exactly the variables of its kind, once, and
      with that kind's characters cut off; under another variable nothing is stored. */
  lemma WordStoredExactly(w: string, k: Kind, key: Key)
    requires w != "" && Is(k, w) && !k.Waits?
    ensures Parse([w]).Ok? && Project(Parse([w]).value.emits, key) == if key in KeysOf(k) then [FlagOf(k, w, key)] else []
    ensures Parse([w]).value.next.Idle? <==> !k.Mapped?
  {
    ParseOne(Idle, w);
    WordStarts(w, k);
    ProjectRow(k, w, key);
  }

  /** A word waits for the next one exactly when the table says so. */
  lemma WaitsExactly(w: string)
    requires w != ""
    ensures Parse([w]).Ok?
    ensures !Parse([w]).value.next.Idle? <==> Is(Waits, w) || Is(Mapped, w)
  {
    ParseOne(Idle, w);
    var k := KindOf(w);
    if !k.Waits? { WordStarts(w, k); }
    if Is(Waits, w) { WaitingStarts(w); }
    if Is(Mapped, w) { WordStarts(w, Mapped); }
  }

  /** What `Start` does with an option that waits. */
  lemma WaitingStarts(o: string)
    requires Marked(Waits, o)
    ensures Start(o).Ok? && Start(o).value.emits == [] && Start(o).value.next == WaitsFor(o)
  {
    if o == "-framework" || o == "-F" {
      FrameworkStarts(o);
    } else if o !in {"-L", "-l", "-I", "-D"} {
      OptionStarts(o);
    }
  }

  lemma FrameworkStarts(o: string)
    requires o == "-framework" || o == "-F"
    ensures Start(o) == Ok(Step([], WaitsFor(o)))
  {
    Letters(o);
    assert Left(o);
    assert o != "-framework" ==> !("-frameworkdir=" <= o) && |o| == 2 && o[2..] == "";
  }

  function WaitsFor(o: string): Pending {
    if o == "-L" then ToVar(LIBPATH)
    else if o == "-l" then ToVar(LIBS)
    else if o == "-I" then ToVar(CPPPATH)
    else if o == "-D" then ToDefine
    else if o == "-F" then ToVar(FRAMEWORKPATH)
    else if o == "-framework" then ToVar(FRAMEWORKS)
    else ToOption(o)
  }

  lemma OptionStarts(o: string)
    requires o in {"-include", "-imacros", "-isysroot", "-isystem", "-iquote", "-idirafter", "-arch", "--param"}
    ensures Start(o) == Ok(Step([], ToOption(o)))
  {
    assert o in OPTIONS;
    Letters(o);
    OtherLetters(o);
    assert Left(o);
    assert o != "-framework" && !("-frameworkdir=" <= o) && !("-F" <= o);
    assert o !in BOTH && !("-fsanitize" <= o) && o != "-mwindows" && !("-std=" <= o) && !("-stdlib=" <= o);
  }

  /** What an option with its argument stores under a variable. */
  function OptionFlags(o: string, arg: string, key: Key): seq<Flag> {
    match key
    case LIBPATH => if o == "-L" then [Word(arg)] else []
    case LIBS => if o == "-l" then [Word(arg)] else []
    case CPPPATH => if o == "-I" then [Word(arg)] else []
    case CPPDEFINES => if o == "-D" then [MacroFlag(arg)] else []
    case FRAMEWORKPATH => if o == "-F" then [Word(arg)] else []
    case FRAMEWORKS => if o == "-framework" then [Word(arg)] else []
    case LINKFLAGS =>
      if o == "-dylib_file" then [Word(o), Word(arg)]
      else if o == "-isysroot" || o == "-arch" then [Pair(o, arg)]
      else []
    case CCFLAGS =>
      if o in {"-include", "-imacros"} then [FilePair(o, arg)]
      else if o in {"-isysroot", "-isystem", "-iquote", "-idirafter", "-arch", "--param"} then [Pair(o, arg)]
      else []
    case _ => []
  }

  lemma OptionEmits(o: string, arg: string)
    requires Marked(Waits, o)
    ensures Parse([o, arg]) == Ok(Step(Finish(WaitsFor(o), arg), Idle))
  {
    WaitingStarts(o);
    ParseOne(Idle, o);
    ParseOne(WaitsFor(o), arg);
    ParseConcat(Idle, [o], [arg]);
    assert [o] + [arg] == [o, arg];
    assert [] + Finish(WaitsFor(o), arg) == Finish(WaitsFor(o), arg);
  }

  lemma MappedEmits(o: string, arg: string)
    requires Marked(Mapped, o)
    ensures Parse([o, arg]) == Ok(Step([Emit(LINKFLAGS, Word(o)), Emit(LINKFLAGS, Word(arg))], Idle))
  {
    MappedRow(o);
    ParseOne(Idle, o);
    ParseOne(ToVar(LINKFLAGS), arg);
    ParseConcat(Idle, [o], [arg]);
    assert [o] + [arg] == [o, arg];
    assert Row(Mapped, o) == [Emit(LINKFLAGS, Word(o))];
    assert [Emit(LINKFLAGS, Word(o))] + Finish(ToVar(LINKFLAGS), arg) == [Emit(LINKFLAGS, Word(o)), Emit(LINKFLAGS, Word(arg))];
  }

  /** An option that waits and the word it takes, whatever that is, store exactly this. */
  lemma OptionStoredExactly(o: string, arg: string, key: Key)
    requires Is(Waits, o) || Is(Mapped, o)
    ensures Parse([o, arg]).Ok? && Parse([o, arg]).value.next.Idle?
    ensures Project(Parse([o, arg]).value.emits, key) == OptionFlags(o, arg, key)
  {
    if Marked(Mapped, o) {
      MappedEmits(o, arg);
      MappedStored(o, arg, key);
    } else {
      OptionEmits(o, arg);
      if o in {"-L", "-l", "-I", "-D", "-F", "-framework"} { LetterStored(o, arg, key); } else { NamedStored(o, arg, key); }
    }
  }

  lemma MappedStored(o: string, arg: string, key: Key)
    requires Marked(Mapped, o)
    ensures Project([Emit(LINKFLAGS, Word(o)), Emit(LINKFLAGS, Word(arg))], key) == OptionFlags(o, arg, key)
  {
    ProjectTwo([Emit(LINKFLAGS, Word(o)), Emit(LINKFLAGS, Word(arg))], key);
    assert |o| == 11;
  }

  lemma LetterStored(o: string, arg: string, key: Key)
    requires o in {"-L", "-l", "-I", "-D", "-F", "-framework"}
    ensures Project(Finish(WaitsFor(o), arg), key) == OptionFlags(o, arg, key)
  {
    var g := Finish(WaitsFor(o), arg);
    DefineIs(arg);
    assert g == [g[0]];
    ProjectOne(g[0], key);
    assert o != "-isysroot" && o != "-arch" && o != "-dylib_file" && o !in {"-include", "-imacros"};
    assert o !in {"-isysroot", "-isystem", "-iquote", "-idirafter", "-arch", "--param"};
  }

  lemma NamedStored(o: string, arg: string, key: Key)
    requires o in {"-include", "-imacros", "-isysroot", "-isystem", "-iquote", "-idirafter", "-arch", "--param"}
    ensures WaitsFor(o) == ToOption(o)
    ensures Project(Finish(ToOption(o), arg), key) == OptionFlags(o, arg, key)
  {
    var g := Finish(ToOption(o), arg);
    assert o != "-L" && o != "-l" && o != "-I" && o != "-D" && o != "-F" && o != "-framework" && o != "-dylib_file";
    if |g| == 1 {
      assert g == [g[0]];
      ProjectOne(g[0], key);
    } else {
      ProjectTwo(g, key);
    }
  }

  // ---- A command line ----

  predicate TakesNext(w: string) { Marked(Waits, w) || Marked(Mapped, w) }

  /** What a command line stores under a variable, read off the tables from left to right. */
  ghost function LineFlags(ws: seq<string>, key: Key): seq<Flag> {
    if ws == [] then []
    else if !TakesNext(ws[0]) then Stored(ws[0], key) + LineFlags(ws[1..], key)
    else if |ws| == 1 then (if Marked(Mapped, ws[0]) && key.LINKFLAGS? then [Word(ws[0])] else [])
    else OptionFlags(ws[0], ws[1], key) + LineFlags(ws[2..], key)
  }

  /** No word is empty, except where an option waits for it. */
  predicate NoEmptyWord(ws: seq<string>) {
    if ws == [] then true
    else if !TakesNext(ws[0]) then ws[0] != "" && NoEmptyWord(ws[1..])
    else |ws| == 1 || NoEmptyWord(ws[2..])
  }

  lemma WordIsStored(w: string, key: Key)
    requires w != "" && !TakesNext(w)
    ensures Parse([w]).Ok? && Parse([w]).value.next.Idle? && Project(Parse([w]).value.emits, key) == Stored(w, key)
  {
    var k := KindOf(w);
    if j :| Is(j, w) && key in KeysOf(j) {
      var i :| Is(i, w) && key in KeysOf(i) && Stored(w, key) == [FlagOf(i, w, key)];
      k := i;
    }
    WordStoredExactly(w, k, key);
  }

  lemma LastWaits(w: string, key: Key)
    requires TakesNext(w)
    ensures Parse([w]).Ok?
    ensures Project(Parse([w]).value.emits, key) == if Marked(Mapped, w) && key.LINKFLAGS? then [Word(w)] else []
  {
    ParseOne(Idle, w);
    if Marked(Mapped, w) {
      MappedRow(w);
      ProjectRow(Mapped, w, key);
    } else {
      WaitingStarts(w);
    }
  }

  /** Every command line is rejected exactly when a word is empty that no option waits for; otherwise it
      stores under every variable exactly what the tables say, in the order of the words. */
  lemma {:induction false} LineStoredExactly(ws: seq<string>, key: Key)
    ensures Parse(ws).Ok? <==> NoEmptyWord(ws)
    ensures Parse(ws).Ok? ==> Project(Parse(ws).value.emits, key) == LineFlags(ws, key)
    decreases ws
  {
    if ws == [] {
    } else if !TakesNext(ws[0]) {
      LineStoredExactly(ws[1..], key);
      LineWord(ws, key);
    } else if |ws| == 1 {
      LastWaits(ws[0], key);
      assert ws == [ws[0]];
    } else {
      LineStoredExactly(ws[2..], key);
      LineOption(ws, key);
    }
  }

  ghost predicate LineIs(ws: seq<string>, key: Key) {
    && (Parse(ws).Ok? <==> NoEmptyWord(ws))
    && (Parse(ws).Ok? ==> Project(Parse(ws).value.emits, key) == LineFlags(ws, key))
  }

  lemma LineWord(ws: seq<string>, key: Key)
    requires ws != [] && !TakesNext(ws[0]) && LineIs(ws[1..], key)
    ensures LineIs(ws, key)
  {
    assert ws == [ws[0]] + ws[1..];
    if ws[0] != "" {
      WordIsStored(ws[0], key);
      LineGlued([ws[0]], ws[1..], key);
    }
  }

  lemma LineOption(ws: seq<string>, key: Key)
    requires |ws| > 1 && TakesNext(ws[0]) && LineIs(ws[2..], key)
    ensures LineIs(ws, key)
  {
    OptionStoredExactly(ws[0], ws[1], key);
    assert ws == [ws[0], ws[1]] + ws[2..];
    LineGlued([ws[0], ws[1]], ws[2..], key);
  }

  lemma LineGlued(a: seq<string>, b: seq<string>, key: Key)
    requires Parse(a).Ok? && Parse(a).value.next.Idle?
    ensures Parse(a + b).Ok? <==> Parse(b).Ok?
    ensures Parse(b).Ok? ==>
              Project(Parse(a + b).value.emits, key) == Project(Parse(a).value.emits, key) + Project(Parse(b).value.emits, key)
  {
    ParseConcat(Idle, a, b);
    if Parse(b).Ok? { DistributesByKey(a, b, key); }
  }
}
