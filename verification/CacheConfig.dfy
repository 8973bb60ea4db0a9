/** The creation of a shared build cache directory as a protocol between any number of processes.

    Every process that opens a cache directory runs `CacheDir._readconfig`: it tests whether the
    directory exists, and if not builds a complete directory under a temporary name and renames it
    into place; if the directory is there but has no `config` file it takes the writer lock and
    creates one exclusively; finally it waits for the lock and reads the file back.

    A state is the entry at the cache path, the temporary directories, and one program counter per
    process.  Each step below is one file-system call.  A process may crash between any two steps
    (its lock file then stays behind), the configuration write may fail, and somebody outside the
    protocol may create the directory.  Each process proposes its own configuration. */
module CacheConfig {
  import opened Std

  type Pid = nat

  datatype Config = Config(prefixLen: nat)

  /** The `config` file: it is `Partial` from its exclusive creation until it is closed. */
  datatype ConfigFile = NoFile | Partial | Complete(config: Config)

  /** A directory: the owner of `config.lock`, the `config` file, and whether CACHEDIR.TAG exists. */
  datatype Dir = Dir(lock: Option<Pid>, config: ConfigFile, tagged: bool) {
    predicate Empty() { lock == None && config == NoFile && !tagged }
  }

  datatype Entry = Missing | NotADir | Present(dir: Dir)

  /** Where `_add_config` writes: the process's own temporary directory, or the cache path. */
  datatype Place = Temp | Final

  datatype Error = CannotCreate | NoSuchDir | LockTimeout | FileExists | WriteFailed | BadConfig

  datatype Pc =
    | TestExists
    | MakeTemp
    | AcquireLock(at: Place)
    | OpenConfig(at: Place)
    | WriteConfig(at: Place)
    | CloseConfig(at: Place)
    | ReleaseLock(at: Place)
    | WriteTag(at: Place)
    | Rename
    | TestIsDir
    | Cleanup
    | TestConfig
    | AcquireReadLock
    | ReleaseReadLock
    | ReadConfig
    | Unwind(at: Place, error: Error)
    | Done(config: Config)
    | Failed(error: Error)
    | Crashed
  {
    predicate Finished() { Done? || Failed? || Crashed? }
  }

  datatype Proc = Proc(proposal: Config, pc: Pc)

  datatype State = State(entry: Entry, temps: map<Pid, Dir>, procs: map<Pid, Proc>)

  function Goto(s: State, p: Pid, pc: Pc): State
    requires p in s.procs
  {
    s.(procs := s.procs[p := s.procs[p].(pc := pc)])
  }

  function DirAt(s: State, p: Pid, at: Place): Option<Dir> {
    match at
    case Temp => if p in s.temps then Some(s.temps[p]) else None
    case Final => if s.entry.Present? then Some(s.entry.dir) else None
  }

  function PutDir(s: State, p: Pid, at: Place, d: Dir): State {
    match at
    case Temp => s.(temps := s.temps[p := d])
    case Final => s.(entry := Present(d))
  }

  /** The steps of `_add_config` on a directory that is there. */
  predicate AddConfigStep(s: State, s': State, p: Pid, d: Dir)
    requires p in s.procs
  {
    match s.procs[p].pc
    case AcquireLock(at) =>
      if d.lock == None then s' == Goto(PutDir(s, p, at, d.(lock := Some(p))), p, OpenConfig(at))
      else s' == Goto(s, p, Failed(LockTimeout))
    case OpenConfig(at) =>
      if d.config == NoFile then s' == Goto(PutDir(s, p, at, d.(config := Partial)), p, WriteConfig(at))
      else s' == Goto(s, p, Unwind(at, FileExists))
    case WriteConfig(at) =>
      s' == Goto(s, p, CloseConfig(at)) || s' == Goto(s, p, Unwind(at, WriteFailed))
    case CloseConfig(at) =>
      s' == Goto(PutDir(s, p, at, d.(config := Complete(s.procs[p].proposal))), p, ReleaseLock(at))
    case ReleaseLock(at) =>
      s' == Goto(PutDir(s, p, at, d.(lock := None)), p, WriteTag(at))
    case WriteTag(at) =>
      s' == Goto(PutDir(s, p, at, d.(tagged := true)), p, if at == Temp then Rename else AcquireReadLock)
    case Unwind(at, error) =>
      s' == Goto(PutDir(s, p, at, d.(lock := None)), p, Failed(error))
    case _ => false
  }

  predicate InAddConfig(pc: Pc) {
    pc.AcquireLock? || pc.OpenConfig? || pc.WriteConfig? || pc.CloseConfig? || pc.ReleaseLock? || pc.WriteTag? ||
    pc.Unwind?
  }

  /** A rename of a directory succeeds only onto a missing name or an empty directory. */
  predicate Replaceable(e: Entry) {
    e.Missing? || (e.Present? && e.dir.Empty())
  }

  /** One step of process `p`. */
  predicate ProcStep(s: State, s': State, p: Pid) {
    && p in s.procs
    && var pc := s.procs[p].pc;
       if InAddConfig(pc) then
         match DirAt(s, p, pc.at)
         case Some(d) => AddConfigStep(s, s', p, d)
         case None => pc.AcquireLock? && s' == Goto(s, p, Failed(NoSuchDir))
       else
         match pc
         case TestExists =>
           s' == Goto(s, p, if s.entry.Missing? then MakeTemp else TestConfig)
         case MakeTemp =>
           || s' == Goto(s.(temps := s.temps[p := Dir(None, NoFile, false)]), p, AcquireLock(Temp))
           || s' == Goto(s, p, Failed(CannotCreate))
         case Rename =>
           || (Replaceable(s.entry) && p in s.temps &&
               s' == Goto(s.(entry := Present(s.temps[p]), temps := s.temps - {p}), p, AcquireReadLock))
           || s' == Goto(s, p, TestIsDir)
         case TestIsDir =>
           s' == Goto(s, p, if s.entry.Present? then Cleanup else Failed(CannotCreate))
         case Cleanup =>
           s' == Goto(s.(temps := s.temps - {p}), p, TestConfig) || s' == Goto(s, p, TestConfig)
         case TestConfig =>
           s' == Goto(s, p, if s.entry.Present? && s.entry.dir.config != NoFile then AcquireReadLock
                            else AcquireLock(Final))
         case AcquireReadLock =>
           if !s.entry.Present? then s' == Goto(s, p, Failed(NoSuchDir))
           else if s.entry.dir.lock == None then
             s' == Goto(s.(entry := Present(s.entry.dir.(lock := Some(p)))), p, ReleaseReadLock)
           else s' == Goto(s, p, Failed(LockTimeout))
         case ReleaseReadLock =>
           s.entry.Present? && s' == Goto(s.(entry := Present(s.entry.dir.(lock := None))), p, ReadConfig)
         case ReadConfig =>
           s' == Goto(s, p, if s.entry.Present? && s.entry.dir.config.Complete? then Done(s.entry.dir.config.config)
                            else if s.entry.Present? && s.entry.dir.config.Partial? then Failed(BadConfig)
                            else Failed(NoSuchDir))
         case _ => false
  }

  predicate CrashStep(s: State, s': State, p: Pid) {
    p in s.procs && !s.procs[p].pc.Finished() && s' == Goto(s, p, Crashed)
  }

  predicate OutsideStep(s: State, s': State) {
    s.entry.Missing? && (s' == s.(entry := Present(Dir(None, NoFile, false))) || s' == s.(entry := NotADir))
  }

  ghost predicate Quiet(s: State, s': State) {
    exists p :: ProcStep(s, s', p) || CrashStep(s, s', p)
  }

  ghost predicate Next(s: State, s': State) {
    Quiet(s, s') || OutsideStep(s, s')
  }

  /** Any entry may be found at the path, even one with a half-written file or a stale lock. */
  predicate Init(s: State) {
    && s.temps == map[]
    && (forall p | p in s.procs :: s.procs[p].pc == TestExists)
    && (s.entry.Present? && s.entry.dir.lock.Some? ==> s.entry.dir.lock.value !in s.procs)
  }

  ghost predicate StepAt(b: seq<State>, i: nat)
    requires i + 1 < |b|
  {
    Next(b[i], b[i + 1])
  }

  ghost predicate Run(b: seq<State>) {
    |b| > 0 && Init(b[0]) && forall i: nat | i + 1 < |b| :: StepAt(b, i)
  }

  ghost predicate QuietStepAt(b: seq<State>, i: nat)
    requires i + 1 < |b|
  {
    Quiet(b[i], b[i + 1])
  }

  ghost predicate QuietRun(b: seq<State>) {
    |b| > 0 && Init(b[0]) && forall i: nat | i + 1 < |b| :: QuietStepAt(b, i)
  }

  // ---- The inductive invariant ----

  predicate HoldsLock(pc: Pc, at: Place) {
    || (pc.OpenConfig? && pc.at == at)
    || (pc.WriteConfig? && pc.at == at)
    || (pc.CloseConfig? && pc.at == at)
    || (pc.ReleaseLock? && pc.at == at)
    || (pc.Unwind? && pc.at == at)
    || (pc.ReleaseReadLock? && at == Final)
  }

  predicate Writing(pc: Pc, at: Place) {
    (pc.WriteConfig? || pc.CloseConfig?) && pc.at == at
  }

  /** The directory is there and `p` owns its lock, so it is not empty and cannot be renamed over. */
  predicate Locked(s: State, p: Pid, at: Place) {
    DirAt(s, p, at).Some? && DirAt(s, p, at).value.lock == Some(p)
  }

  predicate TempIs(s: State, p: Pid, c: ConfigFile) {
    p in s.temps && s.temps[p].config == c
  }

  predicate SharedConfigExists(s: State) {
    s.entry.Present? && s.entry.dir.config != NoFile
  }

  /** What process `p`, at its program counter, may rely on. */
  predicate ProcInv(s: State, p: Pid)
    requires p in s.procs
  {
    var complete := Complete(s.procs[p].proposal);
    match s.procs[p].pc
    case AcquireLock(at) =>
      if at == Temp then TempIs(s, p, NoFile) && s.temps[p].lock == None else !s.entry.Missing?
    case OpenConfig(at) => Locked(s, p, at) && (at == Temp ==> TempIs(s, p, NoFile))
    case WriteConfig(at) => Locked(s, p, at) && DirAt(s, p, at).value.config == Partial
    case CloseConfig(at) => Locked(s, p, at) && DirAt(s, p, at).value.config == Partial
    case ReleaseLock(at) =>
      Locked(s, p, at) && if at == Temp then TempIs(s, p, complete) else SharedConfigExists(s)
    case WriteTag(at) =>
      if at == Temp then TempIs(s, p, complete) && s.temps[p].lock == None else SharedConfigExists(s)
    case Unwind(at, error) => Locked(s, p, at) && (error == WriteFailed || (error == FileExists && at == Final && SharedConfigExists(s)))
    case Rename => TempIs(s, p, complete) && s.temps[p].lock == None
    case Cleanup => !s.entry.Missing?
    case TestConfig => !s.entry.Missing?
    case AcquireReadLock => SharedConfigExists(s)
    case ReleaseReadLock => Locked(s, p, Final) && SharedConfigExists(s)
    case ReadConfig => SharedConfigExists(s)
    case Done(config) => s.entry.Present? && s.entry.dir.config == Complete(config)
    case Failed(error) => error == NoSuchDir ==> s.entry.NotADir?
    case _ => true
  }

  predicate Inv(s: State) {
    forall p | p in s.procs :: ProcInv(s, p)
  }

  lemma InitInv(s: State)
    requires Init(s)
    ensures Inv(s)
  {}

  /** How a step of `p` can change the entry at the cache path. */
  predicate EntryEffect(e: Entry, e': Entry, p: Pid, proposal: Config) {
    || e' == e
    || (e.Present? && e'.Present? && e'.dir.config == e.dir.config &&
        (e'.dir.lock == e.dir.lock || e.dir.lock == None || e.dir.lock == Some(p)))
    || (e.Present? && e'.Present? && e.dir.lock == Some(p) && e'.dir.lock == Some(p) &&
        ((e.dir.config == NoFile && e'.dir.config == Partial) ||
         (e.dir.config == Partial && e'.dir.config == Complete(proposal))))
    || (Replaceable(e) && e'.Present? && e'.dir.config == Complete(proposal))
  }

  lemma StepEntryEffect(s: State, s': State, p: Pid)
    requires ProcStep(s, s', p) && ProcInv(s, p)
    ensures EntryEffect(s.entry, s'.entry, p, s.procs[p].proposal)
  {}

  predicate Frame(s: State, s': State, p: Pid, q: Pid) {
    && p in s.procs && q in s.procs && q in s'.procs && s'.procs[q] == s.procs[q]
    && (q in s.temps <==> q in s'.temps) && (q in s.temps ==> s'.temps[q] == s.temps[q])
  }

  lemma StepFrame(s: State, s': State, p: Pid, q: Pid)
    requires ProcStep(s, s', p) && q in s.procs && q != p
    ensures Frame(s, s', p, q)
  {}

  /** A step of `p` never disturbs what another process `q` relies on. */
  lemma OtherInv(s: State, s': State, p: Pid, q: Pid)
    requires q != p && Frame(s, s', p, q) && ProcInv(s, q)
    requires EntryEffect(s.entry, s'.entry, p, s.procs[p].proposal)
    ensures ProcInv(s', q)
  {}

  lemma OwnInv(s: State, s': State, p: Pid)
    requires Inv(s) && ProcStep(s, s', p)
    ensures ProcInv(s', p)
  {
    assert ProcInv(s, p);
    var pc := s.procs[p].pc;
    if InAddConfig(pc) {
      OwnAddConfigInv(s, s', p);
    } else if pc.Rename? || pc.MakeTemp? || pc.Cleanup? {
      OwnTempInv(s, s', p);
    } else {
      OwnSharedInv(s, s', p);
    }
  }

  lemma OwnTempInv(s: State, s': State, p: Pid)
    requires ProcStep(s, s', p) && ProcInv(s, p)
    requires s.procs[p].pc.Rename? || s.procs[p].pc.MakeTemp? || s.procs[p].pc.Cleanup?
    ensures ProcInv(s', p)
  {
  }

  lemma OwnSharedInv(s: State, s': State, p: Pid)
    requires ProcStep(s, s', p) && ProcInv(s, p) && !InAddConfig(s.procs[p].pc)
    requires !s.procs[p].pc.Rename? && !s.procs[p].pc.MakeTemp? && !s.procs[p].pc.Cleanup?
    ensures ProcInv(s', p)
  {
  }

  lemma OwnAddConfigInv(s: State, s': State, p: Pid)
    requires Inv(s) && ProcStep(s, s', p) && InAddConfig(s.procs[p].pc)
    ensures ProcInv(s', p)
  {
    assert ProcInv(s, p);
    var pc := s.procs[p].pc;
    if DirAt(s, p, pc.at).Some? {
      var d := DirAt(s, p, pc.at).value;
      assert AddConfigStep(s, s', p, d);
      if pc.AcquireLock? || pc.OpenConfig? || pc.Unwind? {
        OwnOpenInv(s, s', p, d);
      } else if pc.WriteConfig? || pc.CloseConfig? {
        OwnWriteInv(s, s', p, d);
      } else {
        OwnReleaseInv(s, s', p, d);
      }
    }
  }

  lemma OwnOpenInv(s: State, s': State, p: Pid, d: Dir)
    requires p in s.procs && ProcInv(s, p) && AddConfigStep(s, s', p, d)
    requires s.procs[p].pc.AcquireLock? || s.procs[p].pc.OpenConfig? || s.procs[p].pc.Unwind?
    requires DirAt(s, p, s.procs[p].pc.at) == Some(d)
    ensures ProcInv(s', p)
  {
  }

  lemma OwnWriteInv(s: State, s': State, p: Pid, d: Dir)
    requires p in s.procs && ProcInv(s, p) && AddConfigStep(s, s', p, d)
    requires s.procs[p].pc.WriteConfig? || s.procs[p].pc.CloseConfig?
    requires DirAt(s, p, s.procs[p].pc.at) == Some(d)
    ensures ProcInv(s', p)
  {
  }

  lemma OwnReleaseInv(s: State, s': State, p: Pid, d: Dir)
    requires p in s.procs && ProcInv(s, p) && AddConfigStep(s, s', p, d)
    requires s.procs[p].pc.ReleaseLock? || s.procs[p].pc.WriteTag?
    requires DirAt(s, p, s.procs[p].pc.at) == Some(d)
    ensures ProcInv(s', p)
  {
  }

  lemma OtherStep(s: State, s': State, p: Pid, q: Pid)
    requires Inv(s) && ProcStep(s, s', p) && q in s.procs && q != p
    ensures q in s'.procs && ProcInv(s', q)
  {
    assert ProcInv(s, p) && ProcInv(s, q);
    StepEntryEffect(s, s', p);
    StepFrame(s, s', p, q);
    OtherInv(s, s', p, q);
  }

  lemma NextInv(s: State, s': State)
    requires Inv(s) && Next(s, s')
    ensures Inv(s')
  {
    if OutsideStep(s, s') {
      OutsideInv(s, s');
    } else {
      var p :| ProcStep(s, s', p) || CrashStep(s, s', p);
      if ProcStep(s, s', p) { ProcStepInv(s, s', p); } else { CrashInv(s, s', p); }
    }
  }

  lemma OutsideInv(s: State, s': State)
    requires Inv(s) && OutsideStep(s, s')
    ensures Inv(s')
  {
    forall q | q in s'.procs ensures ProcInv(s', q) { assert ProcInv(s, q); }
  }

  lemma CrashInv(s: State, s': State, p: Pid)
    requires Inv(s) && CrashStep(s, s', p)
    ensures Inv(s')
  {
    forall q | q in s'.procs ensures ProcInv(s', q) { assert ProcInv(s, q); }
  }

  lemma ProcStepInv(s: State, s': State, p: Pid)
    requires Inv(s) && ProcStep(s, s', p)
    ensures Inv(s')
  {
    SameProcs(s, s', p);
    forall q | q in s'.procs ensures ProcInv(s', q) {
      if q == p { OwnInv(s, s', p); } else { OtherStep(s, s', p, q); }
    }
  }

  lemma SameProcs(s: State, s': State, p: Pid)
    requires ProcStep(s, s', p)
    ensures s'.procs.Keys == s.procs.Keys
  {}

  lemma {:induction false} RunInv(b: seq<State>, i: nat)
    requires Run(b) && i < |b|
    ensures Inv(b[i])
  {
    if i == 0 {
      InitInv(b[0]);
    } else {
      RunInv(b, i - 1);
      assert StepAt(b, i - 1);
      NextInv(b[i - 1], b[i]);
    }
  }
}
