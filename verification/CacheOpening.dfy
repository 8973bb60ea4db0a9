/** Who gets through: which openers of a cache directory can finish, with what, and why others fail. */
module CacheOpening {
  import opened Std
  import opened CacheConfig
  import opened CacheAgreement

  // ---- Why an opener fails ----

  /** What `p` finds at the call that makes it fail. */
  predicate Cause(s: State, p: Pid, error: Error)
    requires p in s.procs
  {
    var pc := s.procs[p].pc;
    match error
    case CannotCreate => pc.MakeTemp? || (pc.TestIsDir? && !s.entry.Present?)
    case NoSuchDir => s.entry.NotADir?
    case LockTimeout => s.entry.Present? && s.entry.dir.lock.Some? && s.entry.dir.lock != Some(p)
    case FileExists => s.entry.Present? && s.entry.dir.config != NoFile && s.entry.dir.lock == Some(p) && pc.Unwind?
    case WriteFailed => pc.Unwind?
    case BadConfig => s.entry.Present? && s.entry.dir.config == Partial
  }

  /** A lock left by a process of the protocol was left by a crash, or is still in use. */
  predicate LockInUse(s: State) {
    s.entry.Present? && s.entry.dir.lock.Some? && s.entry.dir.lock.value in s.procs ==>
      var pc := s.procs[s.entry.dir.lock.value].pc; HoldsLock(pc, Final) || pc.Crashed?
  }

  lemma StepLockInUse(s: State, s': State, p: Pid)
    requires ProcStep(s, s', p) && Inv(s) && LockInUse(s)
    ensures LockInUse(s')
  {
    assert ProcInv(s, p);
    ProcFrame(s, s', p);
    LockTaken(s, s', p);
  }

  lemma LockTaken(s: State, s': State, p: Pid)
    requires ProcStep(s, s', p) && ProcInv(s, p)
    ensures p in s'.procs
    ensures s'.entry.Present? && s'.entry.dir.lock.Some? ==>
              if s'.entry.dir.lock == Some(p) then
                HoldsLock(s'.procs[p].pc, Final) || (s.entry.Present? && s.entry.dir.lock == Some(p) && !HoldsLock(s.procs[p].pc, Final))
              else s.entry.Present? && s.entry.dir.lock == s'.entry.dir.lock
  {}

  lemma {:induction false} RunLockInUse(b: seq<State>, i: nat)
    requires Run(b) && i < |b|
    ensures LockInUse(b[i])
  {
    if i > 0 {
      RunLockInUse(b, i - 1);
      RunStep(b, i - 1);
      var s, s' := b[i - 1], b[i];
      if Quiet(s, s') {
        var q :| ProcStep(s, s', q) || CrashStep(s, s', q);
        if ProcStep(s, s', q) { StepLockInUse(s, s', q); }
      }
    }
  }

  /** In any run, an opener fails only for a reason that is there when it fails.  In particular, after a
      failed rename it gives up only if there is no directory at the path, and it waits in vain only for
      a lock that another process holds or has left behind. */
  lemma FailureHasCause(b: seq<State>, i: nat, p: Pid)
    requires Run(b) && i + 1 < |b| && p in b[i].procs && !b[i].procs[p].pc.Finished()
    requires p in b[i + 1].procs && b[i + 1].procs[p].pc.Failed?
    ensures Cause(b[i], p, b[i + 1].procs[p].pc.error)
  {
    RunStep(b, i);
    RunLockInUse(b, i);
    var s, s' := b[i], b[i + 1];
    assert ProcInv(s, p);
    if ProcStep(s, s', p) {
      StepHasCause(s, s', p);
    } else if Quiet(s, s') {
      var q :| ProcStep(s, s', q) || CrashStep(s, s', q);
      if ProcStep(s, s', q) { ProcFrame(s, s', q); }
    }
  }

  lemma StepHasCause(s: State, s': State, p: Pid)
    requires ProcStep(s, s', p) && ProcInv(s, p) && LockInUse(s) && p in s'.procs && s'.procs[p].pc.Failed?
    ensures Cause(s, p, s'.procs[p].pc.error)
  {}

  // ---- Openers on their own ----

  /** `p` takes the steps of `b`, and nobody else takes any. */
  ghost predicate Alone(b: seq<State>, p: Pid) {
    |b| > 0 && forall i: nat | i + 1 < |b| :: AloneAt(b, i, p)
  }

  ghost predicate AloneAt(b: seq<State>, i: nat, p: Pid)
    requires i + 1 < |b|
  {
    ProcStep(b[i], b[i + 1], p)
  }

  ghost predicate Finishes(b: seq<State>, s: State, p: Pid, c: Config) {
    Alone(b, p) && b[0] == s && p in b[|b| - 1].procs && b[|b| - 1].procs[p].pc == Done(c)
  }

  /** On its own, `p` can finish opening the cache with this configuration. */
  ghost predicate CanFinish(s: State, p: Pid, c: Config) {
    exists b :: Finishes(b, s, p, c)
  }

  lemma FinishLater(s: State, s': State, p: Pid, c: Config)
    requires ProcStep(s, s', p) && CanFinish(s', p, c)
    ensures CanFinish(s, p, c)
  {
    var b :| Finishes(b, s', p, c);
    var b' := [s] + b;
    forall i: nat | i + 1 < |b'| ensures AloneAt(b', i, p) {
      if i > 0 { assert AloneAt(b, i - 1, p); }
    }
    assert Finishes(b', s, p, c);
  }

  /** Calls left at most. */
  function Rank(pc: Pc): nat {
    match pc
    case TestExists => 21
    case MakeTemp => 20
    case AcquireLock(at) => if at == Temp then 19 else 9
    case OpenConfig(at) => if at == Temp then 18 else 8
    case WriteConfig(at) => if at == Temp then 17 else 7
    case CloseConfig(at) => if at == Temp then 16 else 6
    case ReleaseLock(at) => if at == Temp then 15 else 5
    case WriteTag(at) => if at == Temp then 14 else 4
    case Rename => 13
    case TestIsDir => 12
    case Cleanup => 11
    case TestConfig => 10
    case AcquireReadLock => 3
    case ReleaseReadLock => 2
    case ReadConfig | Unwind(_, _) => 1
    case Done(_) | Failed(_) | Crashed => 0
  }

  /** It is on its way to a rename, or about to try it. */
  predicate BeforeRename(pc: Pc) {
    pc.MakeTemp? || pc.Rename? || (InAddConfig(pc) && !pc.Unwind? && pc.at == Temp)
  }

  predicate AfterRename(pc: Pc) { pc.TestIsDir? || pc.Cleanup? || pc.TestConfig? }

  /** The way is clear for `p` to finish with `c`: nobody else holds the lock it will need, and the
      configuration is there and `p` is not about to create it, or is not there and `p` is. */
  predicate Clear(s: State, p: Pid, c: Config)
    requires p in s.procs
  {
    var pc, mine := s.procs[p].pc, c == s.procs[p].proposal;
    if pc.Done? then pc.config == c
    else match s.entry
         case NotADir => false
         case Missing => mine && (pc.TestExists? || BeforeRename(pc))
         case Present(d) =>
           (d.lock == None || (d.lock == Some(p) && HoldsLock(pc, Final)) || pc.ReadConfig?) &&
           match d.config
           case Complete(x) =>
             x == c && !pc.Finished() && !pc.Unwind? && pc != AcquireLock(Final) && pc != OpenConfig(Final)
           case NoFile =>
             mine && (pc.TestExists? || BeforeRename(pc) || AfterRename(pc) || pc == AcquireLock(Final) || pc == OpenConfig(Final))
           case Partial => mine && Writing(pc, Final)
  }

  /** A step of `p` that leads on if there is one. */
  function Onward(s: State, p: Pid): State
    requires p in s.procs && Inv(s)
  {
    var pc := s.procs[p].pc;
    assert ProcInv(s, p);
    if InAddConfig(pc) then
      match DirAt(s, p, pc.at)
      case None => Goto(s, p, Failed(NoSuchDir))
      case Some(d) => OnwardInAddConfig(s, p, d)
    else
      match pc
      case TestExists => Goto(s, p, if s.entry.Missing? then MakeTemp else TestConfig)
      case MakeTemp => Goto(s.(temps := s.temps[p := Dir(None, NoFile, false)]), p, AcquireLock(Temp))
      case Rename =>
        if s.entry.Missing? then Goto(s.(entry := Present(s.temps[p]), temps := s.temps - {p}), p, AcquireReadLock)
        else Goto(s, p, TestIsDir)
      case TestIsDir => Goto(s, p, if s.entry.Present? then Cleanup else Failed(CannotCreate))
      case Cleanup => Goto(s, p, TestConfig)
      case TestConfig =>
        Goto(s, p, if s.entry.Present? && s.entry.dir.config != NoFile then AcquireReadLock else AcquireLock(Final))
      case AcquireReadLock =>
        if !s.entry.Present? then Goto(s, p, Failed(NoSuchDir))
        else if s.entry.dir.lock.Some? then Goto(s, p, Failed(LockTimeout))
        else Goto(s.(entry := Present(s.entry.dir.(lock := Some(p)))), p, ReleaseReadLock)
      case ReleaseReadLock => Goto(s.(entry := Present(s.entry.dir.(lock := None))), p, ReadConfig)
      case ReadConfig =>
        Goto(s, p, if !s.entry.Present? then Failed(NoSuchDir)
                   else match s.entry.dir.config
                        case Complete(c) => Done(c)
                        case Partial => Failed(BadConfig)
                        case NoFile => Failed(NoSuchDir))
      case _ => s
  }

  function OnwardInAddConfig(s: State, p: Pid, d: Dir): State
    requires p in s.procs && InAddConfig(s.procs[p].pc)
  {
    match s.procs[p].pc
    case AcquireLock(at) =>
      if d.lock == None then Goto(PutDir(s, p, at, d.(lock := Some(p))), p, OpenConfig(at)) else Goto(s, p, Failed(LockTimeout))
    case OpenConfig(at) =>
      if d.config == NoFile then Goto(PutDir(s, p, at, d.(config := Partial)), p, WriteConfig(at))
      else Goto(s, p, Unwind(at, FileExists))
    case WriteConfig(at) => Goto(s, p, CloseConfig(at))
    case CloseConfig(at) => Goto(PutDir(s, p, at, d.(config := Complete(s.procs[p].proposal))), p, ReleaseLock(at))
    case ReleaseLock(at) => Goto(PutDir(s, p, at, d.(lock := None)), p, WriteTag(at))
    case WriteTag(at) => Goto(PutDir(s, p, at, d.(tagged := true)), p, if at == Temp then Rename else AcquireReadLock)
    case Unwind(at, error) => Goto(PutDir(s, p, at, d.(lock := None)), p, Failed(error))
  }

  lemma OnwardIsStep(s: State, p: Pid)
    requires p in s.procs && Inv(s) && !s.procs[p].pc.Finished()
    ensures ProcStep(s, Onward(s, p), p)
  {
    assert ProcInv(s, p);
  }

  lemma OnwardStaysClear(s: State, p: Pid, c: Config)
    requires p in s.procs && Inv(s) && Clear(s, p, c) && !s.procs[p].pc.Done?
    ensures p in Onward(s, p).procs && Clear(Onward(s, p), p, c)
  {
    assert ProcInv(s, p);
    var pc := s.procs[p].pc;
    if InAddConfig(pc) {
      OnwardInAddConfigStaysClear(s, p, c, DirAt(s, p, pc.at).value);
    } else if pc.AcquireReadLock? || pc.ReleaseReadLock? || pc.ReadConfig? {
      ReaderStaysClear(s, p, c);
    }
  }

  lemma OnwardInAddConfigStaysClear(s: State, p: Pid, c: Config, d: Dir)
    requires p in s.procs && InAddConfig(s.procs[p].pc) && DirAt(s, p, s.procs[p].pc.at) == Some(d)
    requires ProcInv(s, p) && Clear(s, p, c)
    ensures p in OnwardInAddConfig(s, p, d).procs && Clear(OnwardInAddConfig(s, p, d), p, c)
  {}

  lemma ReaderStaysClear(s: State, p: Pid, c: Config)
    requires p in s.procs && Inv(s) && Clear(s, p, c)
    requires s.procs[p].pc.AcquireReadLock? || s.procs[p].pc.ReleaseReadLock? || s.procs[p].pc.ReadConfig?
    ensures p in Onward(s, p).procs && Clear(Onward(s, p), p, c)
  {}

  lemma StepRank(s: State, s': State, p: Pid)
    requires ProcStep(s, s', p)
    ensures p in s'.procs && Rank(s'.procs[p].pc) < Rank(s.procs[p].pc)
  {
    var pc := s.procs[p].pc;
    if InAddConfig(pc) && DirAt(s, p, pc.at).Some? { StepRankInAddConfig(s, s', p, DirAt(s, p, pc.at).value); }
  }

  lemma StepRankInAddConfig(s: State, s': State, p: Pid, d: Dir)
    requires p in s.procs && InAddConfig(s.procs[p].pc) && AddConfigStep(s, s', p, d)
    ensures p in s'.procs && Rank(s'.procs[p].pc) < Rank(s.procs[p].pc)
  {}

  /** A clear way leads to the end. */
  lemma {:induction false} ClearFinishes(s: State, p: Pid, c: Config)
    requires p in s.procs && Inv(s) && Clear(s, p, c)
    ensures CanFinish(s, p, c)
    decreases Rank(s.procs[p].pc)
  {
    if s.procs[p].pc.Done? {
      assert Finishes([s], s, p, c);
    } else {
      var s' := Onward(s, p);
      OnwardIsStep(s, p);
      OnwardStaysClear(s, p, c);
      ProcStepInv(s, s', p);
      StepRank(s, s', p);
      ClearFinishes(s', p, c);
      FinishLater(s, s', p, c);
    }
  }

  /** A way that is not clear does not become so by `p`'s own steps. */
  lemma ClearBefore(s: State, s': State, p: Pid, c: Config)
    requires Inv(s) && ProcStep(s, s', p) && p in s'.procs && Clear(s', p, c)
    ensures Clear(s, p, c)
  {
    assert ProcInv(s, p);
    var pc := s.procs[p].pc;
    if InAddConfig(pc) {
      if DirAt(s, p, pc.at).Some? { ClearBeforeInAddConfig(s, s', p, c, DirAt(s, p, pc.at).value); }
    } else {
      ClearBeforeElsewhere(s, s', p, c);
    }
  }

  lemma ClearBeforeInAddConfig(s: State, s': State, p: Pid, c: Config, d: Dir)
    requires p in s.procs && InAddConfig(s.procs[p].pc) && DirAt(s, p, s.procs[p].pc.at) == Some(d)
    requires ProcInv(s, p) && AddConfigStep(s, s', p, d) && p in s'.procs && Clear(s', p, c)
    ensures Clear(s, p, c)
  {}

  lemma ClearBeforeElsewhere(s: State, s': State, p: Pid, c: Config)
    requires ProcStep(s, s', p) && !InAddConfig(s.procs[p].pc) && ProcInv(s, p) && p in s'.procs && Clear(s', p, c)
    ensures Clear(s, p, c)
  {}

  lemma {:induction false} FinishedWasClear(b: seq<State>, p: Pid, c: Config, i: nat)
    requires Alone(b, p) && Inv(b[0]) && i < |b| && p in b[i].procs && Clear(b[i], p, c)
    ensures p in b[0].procs && Clear(b[0], p, c)
  {
    if i > 0 {
      AloneInv(b, p, i - 1);
      assert AloneAt(b, i - 1, p);
      ClearBefore(b[i - 1], b[i], p, c);
      FinishedWasClear(b, p, c, i - 1);
    }
  }

  lemma {:induction false} AloneInv(b: seq<State>, p: Pid, i: nat)
    requires Alone(b, p) && Inv(b[0]) && i < |b|
    ensures Inv(b[i])
  {
    if i > 0 {
      AloneInv(b, p, i - 1);
      assert AloneAt(b, i - 1, p);
      ProcStepInv(b[i - 1], b[i], p);
    }
  }

  /** From any state of any run, a process can on its own finish opening the cache with a configuration
      exactly when the way is clear for it. */
  lemma CanFinishExactly(b: seq<State>, i: nat, p: Pid, c: Config)
    requires Run(b) && i < |b| && p in b[i].procs
    ensures CanFinish(b[i], p, c) <==> Clear(b[i], p, c)
  {
    RunInv(b, i);
    FinishExactly(b[i], p, c);
  }

  lemma FinishExactly(s: State, p: Pid, c: Config)
    requires Inv(s) && p in s.procs
    ensures CanFinish(s, p, c) <==> Clear(s, p, c)
  {
    if Clear(s, p, c) { ClearFinishes(s, p, c); }
    if CanFinish(s, p, c) {
      var b :| Finishes(b, s, p, c);
      FinishedWasClear(b, p, c, |b| - 1);
    }
  }

  /** Whoever finds a complete configuration that nobody has locked can finish with it; so can the loser
      of a rename, at each call that is left to it. */
  lemma LatecomersFinish(b: seq<State>, i: nat, p: Pid, c: Config)
    requires Run(b) && i < |b| && p in b[i].procs && Visible(b[i], c) && b[i].entry.dir.lock == None
    requires var pc := b[i].procs[p].pc; pc.TestExists? || BeforeRename(pc) || AfterRename(pc)
    ensures CanFinish(b[i], p, c)
  {
    CanFinishExactly(b, i, p, c);
  }

  /** An opener on its own finishes with its own proposal if nothing is there, or a directory without
      configuration; with the configuration that is there, if it is complete; and not at all if there is
      something else, a stale lock, or a torn configuration. */
  lemma LoneOpenerExactly(s0: State, p: Pid, c: Config)
    requires Init(s0) && p in s0.procs
    ensures CanFinish(s0, p, c) <==>
            || (s0.entry.Missing? && c == s0.procs[p].proposal)
            || (s0.entry.Present? && s0.entry.dir.lock == None &&
                (s0.entry.dir.config == Complete(c) || (s0.entry.dir.config == NoFile && c == s0.procs[p].proposal)))
  {
    InitInv(s0);
    FinishExactly(s0, p, c);
  }

  /** Nobody hangs: in every state of every run a process that has not finished can take a step, and
      every step it takes brings it nearer its end. */
  lemma OpenersTerminate(b: seq<State>, i: nat, p: Pid)
    requires Run(b) && i < |b| && p in b[i].procs
    ensures !b[i].procs[p].pc.Finished() <==> exists s' :: ProcStep(b[i], s', p)
    ensures forall s' | ProcStep(b[i], s', p) :: p in s'.procs && Rank(s'.procs[p].pc) < Rank(b[i].procs[p].pc)
  {
    RunInv(b, i);
    var s := b[i];
    assert ProcInv(s, p);
    if !s.procs[p].pc.Finished() { OnwardIsStep(s, p); }
    forall s' | ProcStep(s, s', p) ensures p in s'.procs && Rank(s'.procs[p].pc) < Rank(s.procs[p].pc) { StepRank(s, s', p); }
  }
}
