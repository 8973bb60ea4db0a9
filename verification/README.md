# SCons build engine: a verified model

SCons is a build tool written in Python.  This project models the parts of its build engine whose
guarantees depend on state: who may change what, in which order, and what somebody else still holds.
Each part is modelled from its source and its promises are proved for all inputs, all runs or all
interleavings.  Where a promise turns out not to hold, the exact condition under which it does is
proved instead, next to an input that breaks it.

Check the whole project with `dafny verify dfyconfig.toml`.

## The parts

**The shared build cache** (`CacheConfig`, `CacheAgreement`, `CacheOpening`, `CachePaths`,
`CachePublish`, `CacheRetrieval`, `CacheProgress`).  Opening a cache directory is a protocol between any number of processes: test,
build under a temporary name, rename into place, or take a lock and create the configuration
exclusively, then read it back.  Pushing and retrieving is a second protocol over names, files and
bytes.  Both are state machines with one file-system call to a step; processes crash between any two
calls, calls fail, and each process proposes its own configuration.  The system is assumed to offer
what IEEE Std 1003.1 says of `rename()` (a directory replaces only a missing name or an empty
directory, at once) and exclusive creation of files.  `CacheAgreement` and `CacheRetrieval` say what can
never go wrong; `CacheOpening` and `CacheProgress` say who gets through, and why others do not.

**Construction environments.**  `Overrides` gives nested override layers with tombstones as values
and `OverrideEnv` gives them as objects that read through live subjects.  `ScannerMap` is the memoised
scanner map.  `Dedup` and `ListVars` are the order-sensitive de-duplication family.  `Defines` and
`CppDefines` are CPPDEFINES: comparing, adding, and rendering for the command line.  `ParseFlags` is
the state machine that distributes command-line words over variables, and `FlagPlaces` compares its chain
of tests with a table of where each kind of word goes.

**Builders.**  `BuilderSuffixes` computes source suffixes over a graph of builders by appending into
the lists its memo holds.  `BuilderNodes` is the temporary builder that targets carry while an
emitter runs.

**Executors and actions.**  `Executor` has batches, sources added in place, and a memo whose entries
are sometimes the live lists.  `Actions` is making, adding and running actions; `ActionRuns` is how
they end; `Signatures` is what their signatures contain.

`Std` and `Strings` are shared.

## How it is written

Code that changes objects step by step is a class or a method with loops, proved equal to a function;
the properties are lemmas about the function.  Protocols are transition relations with inductive
invariants.  A lemma whose name ends in `Exactly` states a condition, or a value, in both
directions.

Two devices need a word.  An acyclic graph of builders is one whose builders can be ranked so that
every source builder ranks lower; `BuilderSuffixes` gives each builder such a rank when it is made.
And an emitter or a leaf action is any change whatever to the state it can reach: it enters as an
arbitrary table or function.

## Where the code and its documentation differ

The model follows the code.

- Opening a directory that somebody made without a configuration can fail with `FileExistsError` when
  two processes do it at once, although the comment in `_add_config` says the lock takes care of that:
  the second one to get the lock does not look again (`CacheAgreement.FallbackRaceExactly`).
- `_update_onlynew` of an override adds keys that the environment below already has
  (`Overrides.UpdateOnlyNewRefinesExactly`), and `lvars` ignores deletions
  (`Overrides.SubstSeesLookupExactly`).
- A unique addition to CPPDEFINES can repeat a macro: the items of a list are not compared with each
  other (`CppDefines.ListCanRepeat`), an entry that Python takes for false counts as not found
  (`CppDefines.FalsyCanRepeat`), and definitions of one token in different forms need not match, such as
  "A=1" and {"A": 1} (`CppDefines.TwoFormsCanRepeat`, `CppDefines.NumbersAndSinglesLookAlike`); which
  forms do is `Defines.SameTokenMatchesExactly`.  The other way round, ("A", True) is dropped where
  ("A", 1) is (`CppDefines.EqualNumbersAreDropped`).
- A value of an unexpected type is dropped from CPPDEFINES without a word
  (`CppDefines.AppendCommutesExactly`).
- `AppendUnique` and `PrependUnique` of a string to a string raise `TypeError` when asked to delete
  existing values (`ListVars.Variable.Append`).
- When an emitter raises an exception, the temporary builders that were meant to be removed stay on the
  new targets where the emitter left them (`BuilderNodes.RaisingEmitterExactly`).
- `setdefault`, `_update`, `_update_onlynew`, deletions and keyword methods that raise can leave a stale
  scanner map (`ScannerMap.RawWritesGoStale`); exactly when is said by
  `ScannerMap.SetDefaultSafeExactly` and the lemmas beside it.
- `MergeFlags` of a blank string takes a string variable apart into characters
  (`ListVars.FlagsVariable.MergeFlags`).
- The changed and unchanged lists of an executor are not computed again when a batch is added
  (`Executor.ChangesStaleAfterBatch`).
- The comment in `ListAction.__init__` says the variables of its elements are not applied again; they
  are, at every level (`Signatures.WrapExactly`).
- A bare tuple with one element, or with `None` as its value, cannot be rendered: `processDefines`
  reads a name only its list branch binds (`Defines.ProcessDefines`, which returns that error).

## Model

| member | source | states |
|---|---|---|
| `CacheConfig.InitInv` | SCons/CacheDir.py:160-269 | Whatever is found at the cache path, a fresh set of processes starts in a state where every process may rely on what its program counter claims. |
| `CacheConfig.StepEntryEffect` | SCons/CacheDir.py:173-201 | A step of one process changes the entry at the cache path only by moving the lock, by filling in a configuration under its own lock, or by renaming a complete directory over a missing or empty one. |
| `CacheConfig.OtherInv` | SCons/CacheDir.py:160-269 | Such a step never disturbs what any other process relies on. |
| `CacheConfig.OwnInv` | SCons/CacheDir.py:160-269 | After its own step a process may rely on what its new program counter claims. |
| `CacheConfig.NextInv` | SCons/CacheDir.py:160-269 | The invariant survives every process step, every crash between two calls, and somebody outside the protocol creating the directory. |
| `CacheConfig.RunInv` | SCons/CacheDir.py:160-269 | The invariant holds in every state of every run of any number of processes. |
| `CacheAgreement.OneWriter` | SCons/Util/filelock.py:118-163 | No two processes are inside the locked region of the cache directory at once. |
| `CacheAgreement.StepKeepsVisible` | SCons/CacheDir.py:228-252 | No step removes or rewrites a complete configuration at the cache path. |
| `CacheAgreement.VisibleConfigIsStable` | SCons/CacheDir.py:160-269 | In every run, a complete configuration once visible is visible, unchanged, ever after. |
| `CacheAgreement.AllReadersAgree` | SCons/CacheDir.py:252-269 | Any two processes that finish opening the cache, in any interleaving and at any two moments, hold the same configuration, although each proposes its own. |
| `CacheAgreement.VisibleIsLegitimate` | SCons/CacheDir.py:160-269 | That configuration was there at the start or was proposed by some process. |
| `CacheAgreement.RunNoTorn` | SCons/CacheDir.py:173-182 | Unless a writer crashed or failed, a half-written configuration at the cache path has a live writer and no reader past the lock sees it. |
| `CacheAgreement.TornReadNeedsAFault` | SCons/CacheDir.py:262-269 | A process reports an unreadable configuration only if some writer crashed or failed, or the file was torn from the start. |
| `CacheAgreement.FallbackRaceExactly` | SCons/CacheDir.py:173-175 | Opening can fail with FileExistsError because another process opened the cache first if and only if the directory is missing, so that somebody outside may still create it empty, or is there without a configuration and without an abandoned lock. |
| `CacheAgreement.QuietFallbackRaceExactly` | SCons/CacheDir.py:173-175 | If nobody outside interferes, that is so if and only if the directory is there without a configuration and without an abandoned lock. |
| `CacheOpening.FailureHasCause` | SCons/CacheDir.py:160-269 | In any run an opener fails only for a reason that is there: after a failed rename it gives up only if no directory is at the path, it waits in vain only for a lock another process holds or left, and so for every failure. |
| `CacheOpening.CanFinishExactly` | SCons/CacheDir.py:160-269 | From any state of any run, a process can finish by its own steps with a configuration if and only if the way is clear: nobody else holds the lock it needs, and the configuration is there and it is not about to create it, or is not there and it is. |
| `CacheOpening.LatecomersFinish` | SCons/CacheDir.py:237-248 | Whoever finds a complete, unlocked configuration can finish with it, the loser of a rename included, at each call that is left to it. |
| `CacheOpening.LoneOpenerExactly` | SCons/CacheDir.py:252-269 | An opener on its own finishes with its proposal if nothing is there or a directory without configuration, with the configuration that is there if it is complete, and not at all otherwise. |
| `CacheOpening.OpenersTerminate` | SCons/CacheDir.py:160-269 | In every state of every run a process that has not finished can take a step, and every step it takes brings it nearer its end. |
| `CachePaths.CachePathShape` | SCons/CacheDir.py:333-347 | A cache file is some directory, a slash, and the signature. |
| `CachePaths.CachePathExactly` | SCons/CacheDir.py:333-347 | That directory is the root, or its subdirectory named by the first characters of the signature, as many as configured, in upper case. |
| `CachePaths.CachePathInjective` | SCons/CacheDir.py:333-347 | Two signatures never share a cache file, not even for processes with different prefix lengths. |
| `CachePaths.TempPathsDistinct` | SCons/CacheDir.py:113 | A temporary name is never the name of a cache file, and determines the cache file and the process. |
| `CachePaths.DisagreementLosesEntries` | SCons/CacheDir.py:333-347 | Two configurations put a signature in the same place if and only if their prefix lengths are the same as far as the signature goes. |
| `CachePublish.NextInv` | SCons/CacheDir.py:54-136 | Every step of a push or a retrieval keeps: no file has two names, a visible entry is a complete copy of something pushed there, and a file being read can no longer be written. |
| `CachePublish.RunInv` | SCons/CacheDir.py:54-136 | That invariant holds in every state of every run of any number of pushes and retrievals. |
| `CachePublish.OtherTemp` | SCons/CacheDir.py:113 | The temporary file one push writes is not touched by any other push. |
| `CacheRetrieval.EntriesNeverDisappear` | SCons/CacheDir.py:84-132 | A published cache entry never disappears. |
| `CacheRetrieval.VisibleEntriesAreComplete` | SCons/CacheDir.py:113-122 | At every moment of every run, a visible entry holds, complete, the bytes of some push to that path. |
| `CacheRetrieval.PushedToIsPushed` | SCons/CacheDir.py:333-347 | Bytes pushed to the path of a signature were pushed under that signature. |
| `CacheRetrieval.DeliveredWasPushed` | SCons/CacheDir.py:54-76 | A retrieval that reports success delivered exactly the bytes of some push under its own signature, even if the entry was replaced meanwhile. |
| `CacheProgress.RetrievalFits` | SCons/CacheDir.py:60-76 | In any run a retrieval that found the cache file opens and copies it if and only if actions are executed, and ends in a dry run if and only if they are not. |
| `CacheProgress.RetrievalEnds` | SCons/CacheDir.py:54-76 | It misses only if there was no file when it looked; a dry run ends only without executing; and otherwise it raises or has delivered, whole, what was pushed under its signature. |
| `CacheProgress.LoneRetrievalExactly` | SCons/CacheDir.py:54-76 | From any state of any run, which ends a retrieval can reach on its own: a miss if and only if there is no file, a dry run if and only if there is one and nothing is executed, and delivery of exactly the bytes of the file, or an exception, if and only if there is one and it is executed. |
| `CacheProgress.LonePushExactly` | SCons/CacheDir.py:84-132 | From any state of any run a push can publish exactly its content on its own, warn or raise, if and only if there is no file yet, and leaves everything to the file if and only if there is one. |
| `CacheProgress.PublishedWhole` | SCons/CacheDir.py:113-122 | Whoever else is at work, the call that publishes makes the cache file exactly what is pushed. |
| `CacheRetrieval.SameConfig` | SCons/CacheDir.py:252-269 | All processes that opened one cache use the same configuration while they push and retrieve. |
| `CacheRetrieval.HitAfterPublish` | SCons/CacheDir.py:54-64 | Once one process has pushed a signature, or found it there, every later test for it by any process that opened the same cache is a hit. |
| `Overrides.ContainsIsLookup` | SCons/Environment.py:2828-2896 | `in` and `[]` agree for every key, through any number of layers. |
| `Overrides.BaseIsDictionary` | SCons/Environment.py:608-660 | A base environment is a dictionary: what every operation leaves under every key, reserved names, illegal names and missing keys included. |
| `Overrides.IdentifierExactly` | SCons/Environment.py:631-632 | A legal name consists of letters, digits and underscores and does not begin with a digit. |
| `Overrides.DictionaryIsLookupExactly` | SCons/Environment.py:2898-2933 | `Dictionary`, `keys`, `items` and `values` agree with `[]` on a key if and only if no visible layer has both a value and a tombstone for it. |
| `Overrides.WellFormedIsFlat` | SCons/Environment.py:2828-2933 | Through well-formed layers of any depth all readers describe one flat dictionary. |
| `Overrides.DoubleDeleteBreaks` | SCons/Environment.py:2849-2871 | Deleting twice and then setting leaves a key that `in` finds and `keys` does not list. |
| `Overrides.SetRefines` | SCons/Environment.py:2841-2851 | Setting a key changes exactly that key of the flat dictionary, keeps the layers well formed, and leaves everything below alone. |
| `Overrides.DeleteRefinesExactly` | SCons/Environment.py:2853-2871 | Deleting behaves like deleting from the flat dictionary, errors included, if and only if it does not repeat a deletion that hides something below. |
| `Overrides.UpdateRefinesExactly` | SCons/Environment.py:2945-2947 | `_update` refines the flat update, and keeps the layer well formed, if and only if it writes no tombstoned key. |
| `Overrides.ReplacedExactly` | SCons/Environment.py:2971-2974 | `Replace` makes every keyword visible except the reserved names, which change nothing. |
| `Overrides.SetDefaultRefinesExactly` | SCons/Environment.py:2935-2943 | `setdefault` refines the flat operation if and only if the key is not tombstoned. |
| `Overrides.UpdateOnlyNewRefinesExactly` | SCons/Environment.py:2949-2957 | `_update_onlynew` refines "add what is missing" exactly under the stated condition on masked and deleted keys. |
| `Overrides.RunSimulates` | SCons/Environment.py:2841-2974 | In every run of benign operations an override over well-formed layers cannot be told from one plain dictionary, errors included, and what it overrides never changes. |
| `Overrides.ShowsThroughExactly` | SCons/Environment.py:2828-2839 | A change below shows through a stack of layers exactly for the keys that no layer masks. |
| `Overrides.SubstSeesLookupExactly` | SCons/Environment.py:2959-2967 | Substitution sees what `[]` sees for a key if and only if no deleted key leaks from below. |
| `Overrides.SubstIsDictionary` | SCons/Environment.py:2959-2967 | Without tombstones the substitution view equals the flattened dictionary at every depth. |
| `Overrides.DeletedStillSubstituted` | SCons/Environment.py:2963-2967 | A deleted variable is gone from the dictionary and still substituted. |
| `OverrideEnv.BaseEnv.SetItem` | SCons/Environment.py:618-633 | On the object, setting a key is the value-level operation, reserved and illegal names included. |
| `OverrideEnv.BaseEnv.DelItem` | SCons/Environment.py:608-613 | On the object, deleting is the value-level operation, and a missing key raises. |
| `OverrideEnv.OverrideEnvironment.GetItem` | SCons/Environment.py:2828-2839 | Reading through live subjects returns what the flattened chain holds now. |
| `OverrideEnv.OverrideEnvironment.HasKey` | SCons/Environment.py:2886-2896 | The same for `in`. |
| `OverrideEnv.OverrideEnvironment.AsDictionary` | SCons/Environment.py:2898-2921 | The same for `Dictionary`. |
| `OverrideEnv.OverrideEnvironment.SetItem` | SCons/Environment.py:2841-2851 | Setting changes this object alone; every object below keeps its value. |
| `OverrideEnv.OverrideEnvironment.DelItem` | SCons/Environment.py:2853-2871 | Deleting changes this object alone, with the errors of the value-level operation. |
| `OverrideEnv.OverrideEnvironment.SetDefault` | SCons/Environment.py:2935-2943 | Returns the value that is visible afterwards and changes this object alone. |
| `OverrideEnv.OverrideEnvironment.Update` | SCons/Environment.py:2945-2947 | Writes into this layer alone. |
| `OverrideEnv.OverrideEnvironment.UpdateOnlyNew` | SCons/Environment.py:2949-2957 | Writes into this layer alone what this layer does not have. |
| `OverrideEnv.OverrideEnvironment.Replace` | SCons/Environment.py:2971-2974 | Writes into this layer alone, without the reserved names. |
| `OverrideEnv.CopyOf` | SCons/Environment.py:2898-2921 | Copying an environment key by key gives its flattened dictionary. |
| `OverrideEnv.GlobalsOf` | SCons/Environment.py:2959-2961 | The global variables are those of the base, at any depth. |
| `OverrideEnv.LocalsOf` | SCons/Environment.py:2963-2969 | The local variables are the overrides of all layers, the topmost winning. |
| `OverrideEnv.OnlyBaseChanged` | SCons/Environment.py:2790-2821 | If only the base object changed, an override any number of layers above is its old layers over the new base. |
| `OverrideEnv.WriteBase` | SCons/Environment.py:618-633 | Writing the base of a stack leaves every layer alone and shows through it. |
| `ScannerMap.BuildIsFirstMatch` | SCons/Environment.py:1460-1468 | The map built backwards with overwriting gives, for every key, the first scanner in list order that claims it, case folded on win32. |
| `ScannerMap.FoldIs` | SCons/Environment.py:1466-1467 | Exactly where PLATFORM is "win32", capital letters of a key become small ones. |
| `ScannerMap.ClaimsExactly` | SCons/Environment.py:1460-1468 | A scanner claims the keys it lists, or the words of the string or list that its variable holds. |
| `ScannerMap.KeyVariableMatters` | SCons/Environment.py:1465-1468 | A variable that holds scanner keys can be given a value that changes the map. |
| `ScannerMap.PlatformMatters` | SCons/Environment.py:1466-1467 | If some key has an upper-case letter, switching the platform changes the map. |
| `ScannerMap.InputMatters` | SCons/Environment.py:1441-1472 | Whatever is called an input of the map is one: some value of it changes the map. |
| `ScannerMap.AssignmentSafeExactly` | SCons/Environment.py:179-187 | Assigning a variable leaves no stale map, whatever the value, if and only if nothing is cached, or it is SCANNERS, or the name is refused, or it is no input of the map. |
| `ScannerMap.SetDefaultSafeExactly` | SCons/Environment.py:654-656 | `setdefault` leaves none, whatever the value, if and only if nothing is cached, or the variable is there, or it is no input. |
| `ScannerMap.UpdateSafeExactly` | SCons/Environment.py:1487-1492 | `_update` of given variables leaves none, whatever their values, if and only if nothing is cached or none of them is an input. |
| `ScannerMap.UpdateOnlyNewSafeExactly` | SCons/Environment.py:1494-1501 | `_update_onlynew`, likewise, for those that are not there yet. |
| `ScannerMap.DelItemSafeExactly` | SCons/Environment.py:608-613 | Deleting a variable leaves none if and only if nothing is cached, or it is SCANNERS or not there, or no key needs PLATFORM if it is that, and the keys it held have the same first match without it. |
| `ScannerMap.AddManySafeExactly` | SCons/Environment.py:1515-1581 | `Append` and its relatives leave none, whatever the values and however they combine, if and only if nothing is cached or none of the variables but the last is an input. |
| `ScannerMap.RunCoherent` | SCons/Environment.py:1441-1485 | In every run of safe operations a cached map is what would be computed now. |
| `ScannerMap.RawWritesGoStale` | SCons/Environment.py:654-656 | `setdefault` of a missing SCANNERS, and a keyword method that raises after changing the scanners, leave a map that misses the added scanner. |
| `ScannerMap.BaseEnv.ScannerMap` | SCons/Environment.py:1441-1472 | Returns the cached map or the fresh one, and caches it unless computing it raises. |
| `ScannerMap.BaseEnv.GetScanner` | SCons/Environment.py:1474-1478 | Returns the entry for the folded key in that map. |
| `ScannerMap.BaseEnv.SetItem` | SCons/Environment.py:618-633 | Setting SCANNERS drops the map, reserved names are ignored, illegal ones raise, and any other variable is set and keeps the map. |
| `ScannerMap.BaseEnv.DelItem` | SCons/Environment.py:179-182 | Deleting SCANNERS drops the map; a missing variable raises. |
| `ScannerMap.BaseEnv.AddMany` | SCons/Environment.py:1515-1581 | The keyword methods change one variable after the other and drop the map only if none of them raised. |
| `ScannerMap.BaseEnv.MapDelete` | SCons/Environment.py:1480-1485 | Drops the map and nothing else. |
| `Dedup.KeepFirstMeaning` | SCons/Environment.py:189-205 | The reference function lists each element once, in the order of first occurrence. |
| `Dedup.KeepFirstIsDetermined` | SCons/Environment.py:189-205 | Only one list does that. |
| `Dedup.KeepLastIsMirrored` | SCons/Environment.py:1184-1188 | Keeping the last is keeping the first of the reversed list, reversed. |
| `Dedup.KeepFirstSplit` | SCons/Environment.py:1178-1183 | Keeping the first distributes over concatenation, the second part losing what the first has. |
| `Dedup.KeepLastSplit` | SCons/Environment.py:1184-1188 | Keeping the last distributes the other way round. |
| `Dedup.DeleteDuplicatesExactly` | SCons/Environment.py:189-205 | The reverse-and-seen-set code keeps exactly the first, or the last, of equal elements if and only if no unhashable element is repeated. |
| `Dedup.DeleteDuplicatesLoop` | SCons/Environment.py:189-205 | The loop on the list object returns that, and reverses the caller's list when it keeps the last. |
| `Dedup.KeepFirstLoop` | SCons/Environment.py:1179-1183 | The loop for path variables keeps the first of equal elements. |
| `Dedup.KeepLastLoop` | SCons/Environment.py:1184-1188 | The backwards loop with front insertion keeps the last of equal elements. |
| `ListVars.PrependIsMirroredAppend` | SCons/Environment.py:2089-2117 | `PrependUnique(l, v)` is the reversal of `AppendUnique(rev l, rev v)` for both settings of delete_existing. |
| `ListVars.ElementLands` | SCons/Environment.py:1655-1664 | A string added to a list becomes its last, or its first, element, unless it is there already and is to stay where it is. |
| `ListVars.StringLands` | SCons/Environment.py:1665-1668 | A string added to a string is concatenated at that end, or raises when existing values are to be deleted. |
| `ListVars.AppendUniqueIdempotentExactly` | SCons/Environment.py:1640-1668 | `AppendUnique` of the same value again changes nothing, except exactly when the variable is a non-empty string. |
| `ListVars.PrependUniqueIdempotent` | SCons/Environment.py:2089-2117 | `PrependUnique` on lists is idempotent. |
| `ListVars.MergeIdempotent` | SCons/Environment.py:1140-1190 | `MergeFlags` of the same flags again changes nothing, whatever the variable held and whatever form the flags have. |
| `ListVars.MergeIsAppendUniqueExactly` | SCons/Environment.py:1146-1190 | For a list of flags `MergeFlags` is `AppendUnique`, old elements keeping their place in path variables and moving to the end in others, if and only if the old elements that keep their place do not repeat. |
| `ListVars.MergeCoerces` | SCons/Environment.py:1146-1176 | What is missing or empty is replaced, and a string or a scalar counts as a list of one element as long as there is something to add. |
| `ListVars.MergeSplits` | SCons/Environment.py:1140-1143 | A falsy value changes nothing, a string is split, and anything else is a list of one element. |
| `ListVars.PathsEndInPath` | SCons/Environment.py:1178 | The variables that keep the first of equal elements are those whose name ends in PATH. |
| `ListVars.FlagsVariable.MergeFlags` | SCons/Environment.py:1140-1190 | The loop body of `MergeFlags`: what is missing or empty is replaced, a string or scalar becomes the first element, a list is extended, and the result is de-duplicated; an untouched scalar raises. |
| `ListVars.Variable.Append` | SCons/Environment.py:1640-1668 | The branches of `AppendUnique`, the exception and the untouched variable included. |
| `ListVars.Variable.Prepend` | SCons/Environment.py:2089-2117 | The branches of `PrependUnique`, likewise. |
| `Strings.JoinSplit` | SCons/Environment.py:960-966 | Joining what was split at a character gives the string back. |
| `Strings.SplitPairExactly` | SCons/Environment.py:960-966 | Splitting `a=s` gives the pair (a, s) if and only if neither part contains another separator. |
| `Strings.WordsOfBlank` | SCons/Environment.py:300-301 | White space has no words. |
| `Strings.WordsFirst` | SCons/Environment.py:300-301 | The first word of a string is what is between the white space in front and the next, or the end; the others are those of the rest. |
| `Strings.WordsJoin` | SCons/Defaults.py:616-617 | Words joined by spaces are split into the same words. |
| `Defines.ProcessDefines` | SCons/Defaults.py:552-621 | The loops of `processDefines` produce the rendering of every form, or its first error. |
| `Defines.RenderConcat` | SCons/Defaults.py:568-597 | Rendering a concatenation concatenates the renderings; the first error wins. |
| `Defines.NoneRendersNothing` | SCons/Defaults.py:567-597 | `None` in a list renders to nothing, wherever it stands. |
| `Defines.RenderTuples` | SCons/Defaults.py:584-616 | A dictionary renders like the list of its items. |
| `Defines.RenderFailsExactly` | SCons/Defaults.py:567-597 | Rendering a list raises if and only if an entry is of an unknown type or a pair of no or more than two parts, and the first such entry decides what is raised. |
| `Defines.EqualRenderEqual` | SCons/Environment.py:271-280 | Definitions without numbers that `_macro_conv` makes equal render to the same token, whatever form each has. |
| `Defines.EqualRenderExactly` | SCons/Environment.py:271-280 | With numbers, two pairs that it makes equal render to the same token if and only if their parts have the same texts. |
| `Defines.EqualNumbersRenderDifferently` | SCons/Environment.py:271-280 | ("A", 1) and ("A", True) are equal and render differently. |
| `Defines.SameTokenMatchesExactly` | SCons/Environment.py:271-280 | Two definitions that render to the same token compare equal, when one of them is a string with at most one "=" or a pair of strings without "=", if and only if the other is such a form too; and otherwise if and only if they are both strings, or pairs of equal parts. |
| `Defines.StringMatchesPairExactly` | SCons/Environment.py:271-280 | A string and a pair of strings that render alike compare equal if and only if neither name nor value contains another "=". |
| `CppDefines.AddOneUniqueExactly` | SCons/Environment.py:337-385 | One unique addition keeps the deque free of repetitions if and only if its match is not an entry Python takes for false; the names afterwards are the old ones and the new one. |
| `CppDefines.AddEachUnique` | SCons/Environment.py:337-361 | Unique additions of the items of a dictionary, string or tuple never repeat a name, in front or behind, replacing or not. |
| `CppDefines.AddListUniqueExactly` | SCons/Environment.py:388-404 | A unique addition of a list leaves no repetition if and only if the items it appends do not repeat each other. |
| `CppDefines.AddUniqueExactly` | SCons/Environment.py:337-404 | The same for a value of any form at once, with the names afterwards. |
| `CppDefines.MatchCountsExactly` | SCons/Environment.py:283-291 | Whether a match counts depends on the truth of the item if an equal entry is there, and else of the entry found. |
| `CppDefines.AddOneWhere` | SCons/Environment.py:337-385 | A unique addition of one item takes away every entry that names it, or nothing, keeps the order of the rest, and puts the item at the end asked for. |
| `CppDefines.AddOneTokensExactly` | SCons/Environment.py:337-385 | After a unique addition of one item the tokens on the command line are distinct if and only if the item was left out, or every entry that renders like it matched it and was taken away. |
| `CppDefines.AddListTokensExactly` | SCons/Environment.py:388-404 | After one of a list they are distinct if and only if the tokens added are, and every entry that renders like an added item matches one. |
| `CppDefines.AddEachTokens` | SCons/Environment.py:337-361 | For several macros of a string, tuple or dictionary they stay distinct if no two of the definitions render alike without matching. |
| `CppDefines.AddListWhere` | SCons/Environment.py:388-404 | The same for a list, whose items go behind, or in front in reverse order. |
| `CppDefines.ListCanRepeat` | SCons/Environment.py:388-404 | Any item listed twice is added twice. |
| `CppDefines.FalsyCanRepeat` | SCons/Environment.py:340-350 | Any entry that Python takes for false is added again although it is found. |
| `CppDefines.TwoFormsCanRepeat` | SCons/Environment.py:271-291 | Any two definitions that render alike and do not match both stay, and the token is rendered twice. |
| `CppDefines.NumbersAndSinglesLookAlike` | SCons/Environment.py:271-291 | Such are "A=1" and {"A": 1}, and "A" and a tuple of one element. |
| `CppDefines.EqualNumbersAreDropped` | SCons/Environment.py:271-291 | And a pair that differs from one that is there in the text of a number alone is dropped. |
| `CppDefines.AddPlain` | SCons/Environment.py:337-404 | An addition without uniqueness puts the new entries behind, or in front in reverse order. |
| `CppDefines.RenderDeque` | SCons/Environment.py:309-334 | Converting the old value to a deque does not change its rendering. |
| `CppDefines.AppendCommutesExactly` | SCons/Environment.py:292-404 | Appending and then rendering gives the old tokens and then those of the value, if and only if both are of a documented form, or the elements of another container happen to render as its text does, and an added tuple has scalar parts. |
| `CppDefines.FirstValueRenders` | SCons/Environment.py:293-307 | The first value is stored as it is, a string as its words, and renders as on its own. |
| `CppDefines.AddFailsExactly` | SCons/Environment.py:309-385 | When adding raises, with what, and what it leaves: an existing value that cannot be converted, or an added tuple that is too long, empty, or has parts that are not scalar. |
| `CppDefines.Find` | SCons/Environment.py:251-290 | The two searches of `_is_in` find the first equal entry, else the first one with the same normal form. |
| `CppDefines.DefinesEnv.Add` | SCons/Environment.py:208-404 | `_add_cppdefines` on the environment computes the functions the lemmas are about, leaving what the code leaves when it raises. |
| `ParseFlags.DistributesExactly` | SCons/Environment.py:988-1106 | Parsing distributes over concatenation for every continuation if and only if the first list leaves no option waiting. |
| `ParseFlags.DistributesByKey` | SCons/Environment.py:988-1106 | Then every variable gets the concatenation of what the two parses store under it. |
| `ParseFlags.WaitingTakesTheNextWord` | SCons/Environment.py:990-1024 | With an option waiting, a word that would be a library is stored as its argument instead. |
| `ParseFlags.EveryWordIsAccountedFor` | SCons/Environment.py:988-1106 | Every word is in exactly one stored chunk, in order, or is the trailing option; the only failure is an empty word where no option waits. |
| `ParseFlags.SpellOne` | SCons/Environment.py:1025-1106 | What a single word stores can be spelled back into words that store the same. |
| `ParseFlags.SpellTwo` | SCons/Environment.py:990-1024 | What an option with its argument stores can be spelled back likewise. |
| `ParseFlags.ParseOfSpelling` | SCons/Environment.py:988-1106 | The stored flags of a whole command line determine a command line that parses to them again. |
| `ParseFlags.NothingCut` | SCons/Environment.py:1025-1106 | Everything a word stores is the word, or the word without a prefix that belongs to the variable. |
| `FlagPlaces.WordStoredExactly` | SCons/Environment.py:1025-1106 | A table of twenty-one kinds of words says where each goes: a word is stored once under every variable of its kind, with the characters of its kind cut off, as a file or as text, and nowhere else. |
| `FlagPlaces.WaitsExactly` | SCons/Environment.py:1025-1105 | A word waits for the next one if and only if it is one of fifteen options. |
| `FlagPlaces.OptionStoredExactly` | SCons/Environment.py:990-1024 | What such an option and any argument store under every variable: as text, as a file, paired with the option, or as a macro. |
| `FlagPlaces.LineStoredExactly` | SCons/Environment.py:986-1106 | A command line is rejected if and only if a word is empty that no option waits for; otherwise every variable gets exactly what the tables say, in the order of the words. |
| `ParseFlags.DefineRendersBack` | SCons/Environment.py:960-966 | Any text after "-D", attached or not, with any number of "=", is rendered back as that text. |
| `ParseFlags.MacrosRenderBack` | SCons/Defaults.py:567-583 | The macros of a whole command line render back as the texts that followed "-D", in order. |
| `ParseFlags.ParsedMacrosAppend` | SCons/Environment.py:1136-1138 | Appending the parsed macros to CPPDEFINES adds exactly those texts to its rendering. |
| `ParseFlags.NestingIrrelevant` | SCons/Environment.py:946-955 | How arguments are nested does not matter, only their strings from left to right. |
| `ParseFlags.JoinExactly` | SCons/Environment.py:986-988 | Two strings can be given as one, whatever the second is, if and only if the first leaves no option waiting. |
| `ParseFlags.FlagParser.FirstWord` | SCons/Environment.py:1025-1106 | The chain of tests stores what the specification says for every word, and leaves the right option waiting. |
| `ParseFlags.FlagParser.SecondWord` | SCons/Environment.py:990-1024 | The argument of a waiting option is stored as the specification says. |
| `ParseFlags.FlagParser.ParseWords` | SCons/Environment.py:986-1106 | The loop over the words of a string appends to every variable what the specification stores. |
| `ParseFlags.FlagParser.DoParse` | SCons/Environment.py:946-1106 | The same for nested arguments. |
| `ParseFlags.ParseFlags` | SCons/Environment.py:914-1111 | The dictionary returned holds, for every variable, exactly what the arguments store under it, in order. |
| `BuilderSuffixes.ReachIsReachable` | SCons/Builder.py:860-878 | The recursive set of suffixes below a builder is that of all builders on a path from it. |
| `BuilderSuffixes.ResolveExactly` | SCons/Builder.py:824-830 | The source builders are one for every source that is a builder or the name of one in the environment, in the order of the sources; unknown names are skipped. |
| `BuilderSuffixes.AppendNewIs` | SCons/Builder.py:872-877 | What is appended to a list of suffixes is every new item once, in the order they come in. |
| `BuilderSuffixes.Builder.GetSrcBuilders` | SCons/Builder.py:802-832 | Lists the source builders, those given by name included, in order, and memoises the list. |
| `BuilderSuffixes.Builder.SubstSrcSuffixes` | SCons/Builder.py:838-858 | Returns the memoised list object, or stores a new one with the expanded own suffixes. |
| `BuilderSuffixes.Builder.AppendLoop` | SCons/Builder.py:868-877 | The inner loop appends to the list object what it does not have yet. |
| `BuilderSuffixes.Builder.Extend` | SCons/Builder.py:872-877 | Appending into the memoised list changes that entry alone and keeps every entry right. |
| `BuilderSuffixes.Builder.SrcSuffixes` | SCons/Builder.py:860-878 | The list returned is the memoised object; it holds exactly the suffixes of all builders below, its own in front; it is the old list with the lists of the source builders appended; other entries only grow, and none of a builder of equal or higher rank changes. |
| `BuilderSuffixes.FullLists` | SCons/Builder.py:860-878 | A list that is complete is never changed by any later call. |
| `BuilderSuffixes.Builder.GetSrcSuffix` | SCons/Builder.py:702-707 | The first own suffix; without own suffixes one from below; the empty string if there is none. |
| `BuilderSuffixes.Builder.AddSrcBuilder` | SCons/Builder.py:719-727 | Drops this builder's memo alone and adds the source; the lists of builders above stay right, though incomplete. |
| `BuilderSuffixes.ReachGrows` | SCons/Builder.py:719-727 | Adding a source anywhere takes no suffix away from any builder. |
| `BuilderSuffixes.Builder.GetSdict` | SCons/Builder.py:729-753 | Maps every suffix below a source builder to the last source builder that has it. |
| `BuilderSuffixes.LastWinsExactly` | SCons/Builder.py:729-753 | That is: it has exactly the suffixes below some source builder, and of those builders each suffix belongs to the last. |
| `BuilderSuffixes.Perform` | SCons/Builder.py:719-878 | One more operation keeps all answers so far right and the memo ready to repeat them. |
| `BuilderSuffixes.Session` | SCons/Builder.py:719-878 | In any sequence of questions and additions anywhere in an acyclic graph, every answer is right for the graph at its time, and repeats itself while nothing is added. |
| `BuilderSuffixes.OrderExactly` | SCons/Builder.py:860-878 | A list extended from an earlier one equals the list gathered from scratch if and only if that begins with the earlier one. |
| `BuilderSuffixes.OrderCanDiffer` | SCons/Builder.py:860-878 | So the order, and with it the first suffix, can depend on when a builder was asked. |
| `BuilderNodes.Node.BuilderSet` | SCons/Node/__init__.py:892-897 | Sets the builder and forgets the executor. |
| `BuilderNodes.Attach` | SCons/Builder.py:524-533 | Every target that is not derived gets the temporary builder, once, and looks derived to the emitter. |
| `BuilderNodes.Detach` | SCons/Builder.py:540-547 | The temporary builder is taken off exactly the new targets that still carry it. |
| `BuilderNodes.CreateNodes` | SCons/Builder.py:524-547 | The builders and executors of all nodes after any emitter, with any repetitions among the targets; a new target ends with the temporary builder if and only if the emitter raised and had left it there. |
| `BuilderNodes.DerivedUntouched` | SCons/Builder.py:524-547 | A node is left as the emitter left it, whatever that is, if and only if it is not a target or was already derived. |
| `BuilderNodes.NewTargetExactly` | SCons/Builder.py:540-547 | A new target ends without builder if and only if the emitter left it none or the temporary one. |
| `BuilderNodes.RaisingEmitterExactly` | SCons/Builder.py:538-547 | The temporary builder outlives the call on a new target if and only if the emitter raised and left it there, and on no other node is it put by this code. |
| `BuilderNodes.HarmlessEmitter` | SCons/Builder.py:524-547 | An emitter that touches no builder leaves every builder as before; executors are lost exactly on the new targets. |
| `Executor.AskKeeps` | SCons/Executor.py:506-538 | An entry is right when it is made, and making it leaves the others alone. |
| `Executor.LiveCoherent` | SCons/Executor.py:519-526 | An entry that is the list of a batch is always right. |
| `Executor.AddSourcesExactly` | SCons/Executor.py:392-400 | After `add_sources` an entry is still right if and only if it is the batch's own list; or a copy, and it is for a target of no batch or leaves out all that was added; or a copy that became the batch's list, and it leaves out none of it. |
| `Executor.AddedSources` | SCons/Executor.py:392-400 | `add_sources` appends, in their order and as often as they are given, exactly the sources the batch does not have. |
| `Executor.AddBatchExactly` | SCons/Executor.py:405-411 | After `add_batch` an entry is still right if and only if its target had a batch already, or the new batch brings nothing for it; the list given may be any, one of the memo's included. |
| `Executor.StepKeeps` | SCons/Executor.py:389-411 | Entries that are lists of batches keep pointing at the batch of their target. |
| `Executor.RunAnswers` | SCons/Executor.py:389-538 | In any run the memo holds for a key what was computed when it was first asked for since the last clean-up, or the live list of the batch, or, once a copy was given to a batch, what that batch has. |
| `Executor.Executor.GetUnignoredSources` | SCons/Executor.py:506-538 | Returns the memoised list object: the batch's own list, or a copy that shares nothing with any batch. |
| `Executor.Executor.AddSources` | SCons/Executor.py:392-400 | Extends the list of the only batch in place; with any other number of batches it raises and changes nothing. |
| `Executor.Executor.AddBatch` | SCons/Executor.py:405-411 | Appends a batch that keeps the list it is given, even if the memo holds that list too. |
| `Executor.Executor.Cleanup` | SCons/Executor.py:389-390 | Forgets every entry and the remembered changes. |
| `Executor.TargetsPartition` | SCons/Executor.py:201-225 | Changed and unchanged targets together are the multiset of all targets. |
| `Executor.SidesInOrder` | SCons/Executor.py:201-225 | Each side is a subsequence in the order of the batches. |
| `Executor.ChangesConserve` | SCons/Executor.py:201-225 | The four lists partition targets and real sources, each in the order of the batches; they come from a split of the batches in two, so that the targets and sources of a batch are on the same side, which its first target decides. |
| `Executor.RealFiles` | SCons/Executor.py:201-225 | The lists of sources hold the real file of each source. |
| `Executor.ChangesFailExactly` | SCons/Executor.py:201-225 | Computing the lists raises if and only if some batch has no targets. |
| `Executor.Executor.ComputeChanges` | SCons/Executor.py:201-225 | The loop of `_get_changes` computes those four lists, or raises at the first batch without targets. |
| `Executor.Executor.RememberedChanges` | SCons/Executor.py:229-268 | The four lists are computed once and then remembered. |
| `Executor.ChangesStaleAfterBatch` | SCons/Executor.py:229-268 | What is remembered is out of date after every `add_batch`. |
| `Executor.ChangesAfterSourcesExactly` | SCons/Executor.py:229-268 | After `add_sources` it is right if and only if nothing was added. |
| `Actions.AppendAssociative` | SCons/Action.py:390-409 | Appending actions is associative and has "no action" as its unit. |
| `Actions.EmptyListUnitExactly` | SCons/Action.py:398-409 | The empty list of actions is a unit for an action if and only if that is a list. |
| `Actions.AddAssociative` | SCons/Action.py:586-590 | `+` is associative on anything that can be made an action, exceptions included. |
| `ActionRuns.CreateExactly` | SCons/Action.py:439-510 | What is made of anything given for an action runs exactly the commands given, from left to right, whatever the nesting; it raises exactly for what no action can be made of, and a list of one stands for its element. |
| `Actions.RunIsLeaves` | SCons/Action.py:1496-1506 | Running any tree of actions is running its leaves from left to right up to the first failure. |
| `Actions.RunAppend` | SCons/Action.py:390-409 | Running `a1 + a2` is running `a1` and then, only on status zero, `a2`. |
| `ActionRuns.LeafEnds` | SCons/Action.py:655-737 | An executed action ends with its status sent through the caller's map of exit statuses, or else its own; a build error keeps its text and takes the mapped status, and is none if that is zero; an exception goes up as it is. |
| `ActionRuns.LeafSucceedsExactly` | SCons/Action.py:678-737 | An action succeeds if and only if it is not executed, or gets to the directory asked for and back and its status is mapped to zero. |
| `ActionRuns.TreeSucceedsExactly` | SCons/Action.py:1496-1506 | A tree ends with status zero if and only if each leaf, started where the one before it left the process, succeeds; otherwise it ends as the first leaf that does not. |
| `Actions.LeafCwdExactly` | SCons/Action.py:678-737 | After a leaf, however it ends, the process is where it was if and only if nothing is executed, or a leaf without a directory stays where it is, or the directory cannot be entered, or the old one can be entered again, or the leaf went back itself. |
| `Actions.LeavesCwdExactly` | SCons/Action.py:678-737 | The process is where it was after every leaf of a run if and only if that holds of every leaf the run gets to. |
| `Actions.SettledReturns` | SCons/Action.py:678-737 | It holds if leaves without a directory stay where they are and the directory the run began in can be entered. |
| `Actions.RunRestoresCwd` | SCons/Action.py:678-737 | However a tree of actions ends, by success, failure or exception, the process is where it was, if that holds of every leaf the run gets to. |
| `Actions.Process.CallLeaf` | SCons/Action.py:655-739 | The steps of `__call__`, with the change back in any case, compute the specified state and status. |
| `Actions.Process.Call` | SCons/Action.py:1496-1506 | The loop of a list of actions computes the specified state and status. |
| `Actions.StripMarks` | SCons/Action.py:1011-1023 | The loop takes exactly the leading "@" and "-" off the first word and reports which there were; a word of nothing else is dropped. |
| `Actions.MarksUnique` | SCons/Action.py:1013-1018 | That prefix is determined by the word. |
| `Signatures.VarlistIsLeaves` | SCons/Action.py:1514-1519 | The variables of a list are those of its leaves, once each, in order of first occurrence, however they are grouped. |
| `Signatures.GetVarlist` | SCons/Action.py:1514-1519 | The loops over an ordered dictionary compute that list. |
| `Signatures.LeafContents` | SCons/Action.py:555-584 | The contents of a single action are its own and then the expansion of every variable it names. |
| `Signatures.ContentsAtLeast` | SCons/Action.py:555-584 | Grouping never removes contents. |
| `Signatures.ContentsFlatExactly` | SCons/Action.py:1489-1494 | A list has just the contents of its leaves, however nested, if and only if no leaf names a variable that expands to something. |
| `Signatures.RegroupKeeps` | SCons/Action.py:1489-1494 | Regrouping the same leaves keeps the contents if they name no such variable. |
| `Signatures.WrapExactly` | SCons/Action.py:571-576 | One more list level appends every distinct variable once more, and keeps the contents if and only if all of them expand to nothing. |
| `Signatures.ExecutorRegroupKeeps` | SCons/Executor.py:440-463 | The same for the contents of an executor. |
| `Signatures.AddedActionExactly` | SCons/Executor.py:423-427 | An action added in front or behind leaves a remembered signature right if and only if there is no main list or the action has no contents. |
| `Signatures.PartsInOrder` | SCons/Executor.py:282-285 | An executor signs and runs the actions before the main list, those in it, and those after it, in that order, and none without a main list. |
| `Signatures.ActionExecutor.GetContents` | SCons/Executor.py:440-463 | Returns the remembered contents, or the contents of all actions, and remembers them. |
| `Signatures.ExecuteRestoresCwd` | SCons/Executor.py:113-131 | Executing the list of an executor is running its leaves, and under the same condition ends in the directory it began in. |
| `Signatures.ExecuteFinishesExactly` | SCons/Executor.py:113-131 | Executing finishes if and only if every leaf succeeds; otherwise the first that does not decides whether its build error, a new one of status 2, or its exception is raised. |
| `Signatures.ActionExecutor.ExecuteActionList` | SCons/Executor.py:113-131 | The loop stops at the first failing action and raises its build error, or a new one with the status 2 and the number in its text. |

## Left out

- CacheConfig: the waiting time of `FileLock` and its own race with a crashed owner; a lock is held or not, and a waiter may time out.
- CacheConfig: permission bits, Windows rename, and the text of the configuration file, which is a value here.
- CachePublish: symbolic links, time stamps, permission bits, read-only and `nocache` settings, and the hit statistics.
- CachePublish: two pushes of one process for the same cache file at once, which share a temporary name; the model admits at most one.
- CachePaths: uuids and signatures other than hexadecimal digests, and a disabled cache, which has no paths.
- OverrideEnv.BaseEnv.SetItem: the setters that watch BUILDERS and SCANNERS; the latter is `ScannerMap.BaseEnv.SetItem`.
- OverrideEnv.BaseEnv.DelItem: the deleter that watches SCANNERS, which is `ScannerMap.BaseEnv.DelItem`.
- Overrides: non-ASCII identifiers, and warnings for reserved names.
- Overrides: `subst` itself; what substitution can see is modelled, not how it expands.
- OverrideEnv: the memo an override shares with its subject; the scanner map is modelled for `Base` environments only.
- ScannerMap: how `Append` and its relatives combine two values; the combination is any function that may raise.
- ScannerMap.BaseEnv.SetItem: the setter that watches BUILDERS.
- ScannerMap: expanding what a key variable holds; its value is split as it is.
- ScannerMap: editing the scanner list in place behind the environment's back.
- ListVars.Variable.Append: dictionary values, and CPPDEFINES, which is `CppDefines`.
- ListVars.Variable.Prepend: the same.
- ListVars.FlagsVariable.MergeFlags: a deque of CPPDEFINES, tuples as flags, and variables holding other objects that can be added to a list, appended to or looped over.
- Strings: white space outside ASCII.
- Defines: containers nested in containers, and values whose truth or equality a user class redefines.
- ParseFlags: `shlex.split` and commands after "!": the model starts from lists of words.
- BuilderSuffixes: named builders and expansions that change while a list is memoised; both are fixed for an environment.
- BuilderSuffixes: `src_builder_sources` and `match_splitext`, which only use the lists.
- BuilderNodes: turning what an emitter returns into nodes.
- Executor: the build environment, scanning and implicit dependencies.
- Actions: printing of command lines, shells, command generators and lazily evaluated variables beyond being leaves.
- Actions: the directory a `chdir` that is neither text nor a node is taken from.
- Signatures: the bytes of Python code objects and of expanded command lines, which are abstract.
- Taskmaster, nodes, file-system objects, the substitution engine, configuration tests and platform tools.
