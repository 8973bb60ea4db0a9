/** What every interleaving of the cache directory protocol guarantees, and the one race it loses. */
module CacheAgreement {
  import opened Std
  import opened CacheConfig

  ghost predicate Visible(s: State, c: Config) {
    s.entry.Present? && s.entry.dir.config == Complete(c)
  }

  function ConfigOf(e: Entry): ConfigFile {
    if e.Present? then e.dir.config else NoFile
  }

  /** How one step of `p` can change the shared `config` file. */
  predicate ConfigEffect(s: State, s': State, p: Pid)
    requires p in s.procs && p in s'.procs
  {
    var pc, pc' := s.procs[p].pc, s'.procs[p].pc;
    var c, c' := ConfigOf(s.entry), ConfigOf(s'.entry);
    || (c' == c && (s.entry.Present? <==> s'.entry.Present?) && (s.entry.NotADir? <==> s'.entry.NotADir?))
    || (c == NoFile && c' == Partial && pc == OpenConfig(Final) && pc' == WriteConfig(Final) && s'.entry.Present?)
    || (c == Partial && c' == Complete(s.procs[p].proposal) && pc == CloseConfig(Final) && pc' == ReleaseLock(Final))
    || (c == NoFile && c' == Complete(s.procs[p].proposal) && pc.Rename? && pc'.AcquireReadLock? && Replaceable(s.entry))
  }

  /** How one step of `p` reaches the program counters that matter below. */
  predicate PcEffect(s: State, s': State, p: Pid)
    requires p in s.procs && p in s'.procs
  {
    var pc, pc' := s.procs[p].pc, s'.procs[p].pc;
    && (Writing(pc, Final) ==> Writing(pc', Final) || Stopped(pc') || pc == CloseConfig(Final))
    && (pc == CloseConfig(Final) ==> Stopped(pc') || ConfigOf(s'.entry).Complete?)
    && (pc'.ReleaseReadLock? ==> pc.AcquireReadLock? && s.entry.Present? && s.entry.dir.lock == None)
    && (pc'.ReadConfig? ==> pc.ReleaseReadLock?)
    && (pc' == Failed(BadConfig) ==> pc.ReadConfig? && ConfigOf(s.entry) == Partial)
    && (pc' == AcquireLock(Final) ==> pc.TestConfig? && (s.entry.Present? ==> s.entry.dir.config == NoFile))
    && (pc' == OpenConfig(Final) ==> pc == AcquireLock(Final) && s.entry.Present? && s.entry.dir.lock == None)
    && (pc' == Unwind(Final, FileExists) ==> pc == OpenConfig(Final))
    && (pc' == Failed(FileExists) ==> pc.Unwind? && pc.error == FileExists)
  }

  /** A lock file inside the shared directory is removed only by its owner. */
  predicate LockEffect(s: State, s': State, p: Pid)
    requires p in s.procs && p in s'.procs
  {
    s.entry.Present? && s.entry.dir.lock.Some? && s.entry.dir.lock != Some(p) ==>
      s'.entry.Present? && s'.entry.dir.lock == s.entry.dir.lock
  }

  /** Everything the whole-run arguments need to know about one step. */
  ghost predicate Effect(s: State, s': State, p: Pid) {
    && p in s.procs && s'.procs.Keys == s.procs.Keys
    && (forall q | q in s.procs && q != p :: s'.procs[q] == s.procs[q])
    && s'.procs[p].proposal == s.procs[p].proposal
    && ConfigEffect(s, s', p) && PcEffect(s, s', p) && LockEffect(s, s', p)
    && (Stopped(s.procs[p].pc) ==> Stopped(s'.procs[p].pc))
  }

  predicate Stopped(pc: Pc) {
    pc.Crashed? || pc == Failed(WriteFailed) || (pc.Unwind? && pc.error == WriteFailed)
  }

  lemma ProcFrame(s: State, s': State, p: Pid)
    requires ProcStep(s, s', p)
    ensures s'.procs.Keys == s.procs.Keys && s'.procs[p].proposal == s.procs[p].proposal
    ensures forall q | q in s.procs && q != p :: s'.procs[q] == s.procs[q]
    ensures Stopped(s.procs[p].pc) ==> Stopped(s'.procs[p].pc)
  {
    SameProcs(s, s', p);
    if Stopped(s.procs[p].pc) { ProcStaysStopped(s, s', p); }
  }

  lemma ProcStaysStopped(s: State, s': State, p: Pid)
    requires ProcStep(s, s', p) && p in s'.procs && Stopped(s.procs[p].pc)
    ensures Stopped(s'.procs[p].pc)
  {}

  lemma ProcConfigEffect(s: State, s': State, p: Pid)
    requires ProcStep(s, s', p) && ProcInv(s, p)
    ensures p in s'.procs && ConfigEffect(s, s', p)
  {}

  lemma ProcPcEffect(s: State, s': State, p: Pid)
    requires ProcStep(s, s', p) && (s.procs[p].pc.Unwind? ==> s.procs[p].pc.error != BadConfig)
    ensures p in s'.procs && PcEffect(s, s', p)
  {
    var pc := s.procs[p].pc;
    if InAddConfig(pc) {
      if DirAt(s, p, pc.at).Some? {
        AddConfigPcEffect(s, s', p, DirAt(s, p, pc.at).value);
      }
    }
  }

  lemma AddConfigPcEffect(s: State, s': State, p: Pid, d: Dir)
    requires p in s.procs && InAddConfig(s.procs[p].pc) && DirAt(s, p, s.procs[p].pc.at) == Some(d)
    requires AddConfigStep(s, s', p, d) && (s.procs[p].pc.Unwind? ==> s.procs[p].pc.error != BadConfig)
    ensures p in s'.procs && PcEffect(s, s', p)
  {}

  lemma ProcLockEffect(s: State, s': State, p: Pid)
    requires ProcStep(s, s', p) && ProcInv(s, p)
    ensures p in s'.procs && LockEffect(s, s', p)
  {}

  lemma ProcEffect(s: State, s': State, p: Pid)
    requires Inv(s) && ProcStep(s, s', p)
    ensures Effect(s, s', p)
  {
    assert ProcInv(s, p);
    ProcFrame(s, s', p);
    ProcConfigEffect(s, s', p);
    ProcPcEffect(s, s', p);
    ProcLockEffect(s, s', p);
  }

  lemma StepEffect(s: State, s': State) returns (p: Pid)
    requires Inv(s) && Quiet(s, s')
    ensures Effect(s, s', p)
  {
    p :| ProcStep(s, s', p) || CrashStep(s, s', p);
    if ProcStep(s, s', p) { ProcEffect(s, s', p); }
  }

  lemma StepKeepsVisible(s: State, s': State, c: Config)
    requires Inv(s) && Next(s, s') && Visible(s, c)
    ensures Visible(s', c)
  {
    if !OutsideStep(s, s') {
      var p := StepEffect(s, s');
    }
  }

  lemma RunStep(b: seq<State>, i: nat)
    requires Run(b) && i + 1 < |b|
    ensures Inv(b[i]) && Next(b[i], b[i + 1])
  {
    RunInv(b, i);
    assert StepAt(b, i);
  }

  lemma StableStep(b: seq<State>, i: nat, c: Config)
    requires Run(b) && i + 1 < |b| && Visible(b[i], c)
    ensures Visible(b[i + 1], c)
  {
    RunStep(b, i);
    StepKeepsVisible(b[i], b[i + 1], c);
  }

  /** A complete configuration, once visible at the cache path, is never removed or rewritten. */
  lemma {:induction false} VisibleConfigIsStable(b: seq<State>, i: nat, j: nat, c: Config)
    requires Run(b) && i <= j < |b| && Visible(b[i], c)
    ensures Visible(b[j], c)
    decreases j - i
  {
    if i < j {
      VisibleConfigIsStable(b, i, j - 1, c);
      StableStep(b, j - 1, c);
    }
  }

  /** Whoever finishes opening the cache, at any time and in any interleaving, holds the same
      configuration: winners and losers of the rename, late comers, and survivors of crashes. */
  lemma AllReadersAgree(b: seq<State>, i: nat, j: nat, p: Pid, q: Pid)
    requires Run(b) && i < |b| && j < |b|
    requires p in b[i].procs && b[i].procs[p].pc.Done?
    requires q in b[j].procs && b[j].procs[q].pc.Done?
    ensures b[i].procs[p].pc.config == b[j].procs[q].pc.config
  {
    ReaderSawVisible(b, i, p);
    ReaderSawVisible(b, j, q);
    var ci, cj := b[i].procs[p].pc.config, b[j].procs[q].pc.config;
    if i <= j {
      VisibleConfigIsStable(b, i, j, ci);
    } else {
      VisibleConfigIsStable(b, j, i, cj);
    }
  }

  lemma ReaderSawVisible(b: seq<State>, i: nat, p: Pid)
    requires Run(b) && i < |b| && p in b[i].procs && b[i].procs[p].pc.Done?
    ensures Visible(b[i], b[i].procs[p].pc.config)
  {
    RunInv(b, i);
    assert ProcInv(b[i], p);
  }

  // ---- The configuration read is one that some process proposed, or the one already there ----

  ghost predicate Legitimate(b0: State, s: State, c: Config) {
    Visible(b0, c) || exists p :: p in s.procs && s.procs[p].proposal == c
  }

  lemma StepLegitimate(b0: State, s: State, s': State, c: Config)
    requires Inv(s) && Next(s, s') && Visible(s', c) && (Visible(s, c) ==> Legitimate(b0, s, c))
    ensures Legitimate(b0, s', c)
  {
    if !OutsideStep(s, s') {
      var p := StepEffect(s, s');
      if Visible(s, c) {
        if !Visible(b0, c) {
          var q :| q in s.procs && s.procs[q].proposal == c;
          assert q in s'.procs && s'.procs[q].proposal == c;
        }
      } else {
        assert s'.procs[p].proposal == c;
      }
    }
  }

  /** The configuration everybody uses is the one found in the directory, or one of the proposals. */
  lemma {:induction false} VisibleIsLegitimate(b: seq<State>, i: nat, c: Config)
    requires Run(b) && i < |b| && Visible(b[i], c)
    ensures Legitimate(b[0], b[i], c)
  {
    if i > 0 {
      RunStep(b, i - 1);
      if Visible(b[i - 1], c) { VisibleIsLegitimate(b, i - 1, c); }
      StepLegitimate(b[0], b[i - 1], b[i], c);
    }
  }

  // ---- Nobody reads a half-written file, unless some writer was stopped in the middle ----

  ghost predicate Faulted(s: State) {
    exists p :: p in s.procs && Stopped(s.procs[p].pc)
  }

  ghost predicate NoTorn(s: State) {
    && (s.entry.Present? && s.entry.dir.config == Partial ==>
          Faulted(s) || exists p :: p in s.procs && Writing(s.procs[p].pc, Final))
    && (forall p | p in s.procs && (s.procs[p].pc.ReleaseReadLock? || s.procs[p].pc.ReadConfig?) ::
          Faulted(s) || (s.entry.Present? && s.entry.dir.config.Complete?))
    && (forall p | p in s.procs && s.procs[p].pc == Failed(BadConfig) :: Faulted(s))
  }

  /** Two processes never write the shared `config` at once, and nobody reads while one does. */
  lemma OneWriter(s: State, p: Pid, q: Pid)
    requires Inv(s) && p in s.procs && q in s.procs
    requires HoldsLock(s.procs[p].pc, Final) && HoldsLock(s.procs[q].pc, Final)
    ensures p == q
  {
    assert ProcInv(s, p) && ProcInv(s, q);
  }

  lemma StepNoTorn(s: State, s': State)
    requires Inv(s) && NoTorn(s) && Next(s, s')
    ensures NoTorn(s')
  {
    if !OutsideStep(s, s') {
      var p := StepEffect(s, s');
      NoTornEffect(s, s', p);
    }
  }

  lemma NoTornEffect(s: State, s': State, p: Pid)
    requires Inv(s) && NoTorn(s) && Effect(s, s', p)
    ensures NoTorn(s')
  {
    if f :| f in s.procs && Stopped(s.procs[f].pc) {
      assert f in s'.procs && Stopped(s'.procs[f].pc);
    } else if Stopped(s'.procs[p].pc) {
      assert p in s'.procs;
    } else {
      if s'.entry.Present? && s'.entry.dir.config == Partial {
        WriterRemains(s, s', p);
      }
      forall q | q in s'.procs && (s'.procs[q].pc.ReleaseReadLock? || s'.procs[q].pc.ReadConfig?)
        ensures s'.entry.Present? && s'.entry.dir.config.Complete?
      {
        ReaderFindsComplete(s, s', p, q);
      }
    }
  }

  lemma WriterRemains(s: State, s': State, p: Pid)
    requires NoTorn(s) && !Faulted(s) && Effect(s, s', p) && !Stopped(s'.procs[p].pc)
    requires ConfigOf(s'.entry) == Partial
    ensures exists w :: w in s'.procs && Writing(s'.procs[w].pc, Final)
  {
    if ConfigOf(s.entry) == Partial {
      var w :| w in s.procs && Writing(s.procs[w].pc, Final);
      assert Writing(s'.procs[w].pc, Final);
    } else {
      assert Writing(s'.procs[p].pc, Final);
    }
  }

  lemma UnlockedMeansNoWriter(s: State)
    requires Inv(s) && s.entry.Present? && s.entry.dir.lock == None
    ensures forall w | w in s.procs :: !Writing(s.procs[w].pc, Final)
  {
    forall w | w in s.procs ensures !Writing(s.procs[w].pc, Final) {
      assert ProcInv(s, w);
    }
  }

  lemma ReaderFindsComplete(s: State, s': State, p: Pid, q: Pid)
    requires Inv(s) && NoTorn(s) && !Faulted(s) && Effect(s, s', p)
    requires q in s'.procs && (s'.procs[q].pc.ReleaseReadLock? || s'.procs[q].pc.ReadConfig?)
    ensures s'.entry.Present? && s'.entry.dir.config.Complete?
  {
    if q == p && s.procs[p].pc.AcquireReadLock? {
      UnlockedMeansNoWriter(s);
      assert ProcInv(s, p);
    }
  }

  /** In every run from a directory without a torn file, a reader finds a complete configuration
      unless some process crashed or failed to write it. */
  lemma {:induction false} TornReadNeedsAFault(b: seq<State>, i: nat, p: Pid)
    requires Run(b) && i < |b| && p in b[i].procs && b[i].procs[p].pc == Failed(BadConfig)
    requires !(b[0].entry.Present? && b[0].entry.dir.config.Partial?)
    ensures Faulted(b[i])
  {
    RunNoTorn(b, i);
  }

  lemma {:induction false} RunNoTorn(b: seq<State>, i: nat)
    requires Run(b) && i < |b| && !(b[0].entry.Present? && b[0].entry.dir.config.Partial?)
    ensures NoTorn(b[i])
  {
    if i > 0 {
      RunNoTorn(b, i - 1);
      RunStep(b, i - 1);
      StepNoTorn(b[i - 1], b[i]);
    }
  }

  // ---- The race that is lost: two processes filling in the same existing directory ----

  predicate LostRace(s: State, p: Pid) {
    p in s.procs && s.procs[p].pc == Failed(FileExists)
  }

  ghost predicate QuietlyReaches(s0: State, s: State) {
    exists b: seq<State> :: QuietRun(b) && b[0] == s0 && b[|b| - 1] == s
  }

  ghost predicate QuietlyLosesRace(s0: State) {
    exists s, p :: QuietlyReaches(s0, s) && LostRace(s, p)
  }

  /** No process can meet an existing `config` inside `_add_config`: the directory is not there, is
      not a directory, has its configuration, or is locked by somebody who never comes back. */
  predicate Safe(s: State) {
    && (s.entry.Present? ==> s.entry.dir.config != NoFile || StaleLock(s))
    && forall p | p in s.procs :: SafePc(s, s.procs[p].pc)
  }

  predicate SafePc(s: State, pc: Pc) {
    && (pc == AcquireLock(Final) ==> s.entry.NotADir? || StaleLock(s))
    && pc != OpenConfig(Final) && pc != Unwind(Final, FileExists) && pc != Failed(FileExists)
  }

  predicate StaleLock(s: State) {
    s.entry.Present? && s.entry.dir.lock.Some? && s.entry.dir.lock.value !in s.procs
  }

  lemma SafeEffect(s: State, s': State, p: Pid)
    requires Inv(s) && Safe(s) && Effect(s, s', p)
    ensures Safe(s')
  {
    assert ProcInv(s, p) && SafePc(s, s.procs[p].pc);
    forall q | q in s'.procs ensures SafePc(s', s'.procs[q].pc) {
      assert ProcInv(s, q) && SafePc(s, s.procs[q].pc);
    }
  }

  lemma {:induction false} SafeRun(b: seq<State>, i: nat)
    requires QuietRun(b) && i < |b| && Safe(b[0])
    ensures Safe(b[i]) && Inv(b[i])
  {
    if i == 0 {
      InitInv(b[0]);
    } else {
      SafeRun(b, i - 1);
      SafeStep(b, i - 1);
    }
  }

  lemma SafeStep(b: seq<State>, i: nat)
    requires QuietRun(b) && i + 1 < |b| && Safe(b[i]) && Inv(b[i])
    ensures Safe(b[i + 1]) && Inv(b[i + 1])
  {
    assert QuietStepAt(b, i);
    NextInv(b[i], b[i + 1]);
    var p := StepEffect(b[i], b[i + 1]);
    SafeEffect(b[i], b[i + 1], p);
  }

  // The losing run: `p` and then `q` decide to fill in an existing directory without a `config`,
  // `p` does so, and `q` opens the file that is now there.

  /** `s0` with `d` at the cache path and two processes at the given program counters. */
  function Duel(s0: State, p: Pid, q: Pid, d: Dir, x: Pc, y: Pc): State
    requires p in s0.procs && q in s0.procs && p != q
  {
    State(Present(d), s0.temps, s0.procs[p := s0.procs[p].(pc := x)][q := s0.procs[q].(pc := y)])
  }

  lemma MoveP(s0: State, p: Pid, q: Pid, d: Dir, x: Pc, y: Pc, d': Dir, x': Pc)
    requires p in s0.procs && q in s0.procs && p != q
    requires QuietlyReaches(s0, Duel(s0, p, q, d, x, y))
    requires ProcStep(Duel(s0, p, q, d, x, y), Goto(Duel(s0, p, q, d', x, y), p, x'), p)
    ensures QuietlyReaches(s0, Duel(s0, p, q, d', x', y))
  {
    assert Goto(Duel(s0, p, q, d', x, y), p, x') == Duel(s0, p, q, d', x', y);
    ReachStep(s0, Duel(s0, p, q, d, x, y), Duel(s0, p, q, d', x', y), p);
  }

  lemma MoveQ(s0: State, p: Pid, q: Pid, d: Dir, x: Pc, y: Pc, d': Dir, y': Pc)
    requires p in s0.procs && q in s0.procs && p != q
    requires QuietlyReaches(s0, Duel(s0, p, q, d, x, y))
    requires ProcStep(Duel(s0, p, q, d, x, y), Goto(Duel(s0, p, q, d', x, y), q, y'), q)
    ensures QuietlyReaches(s0, Duel(s0, p, q, d', x, y'))
  {
    assert Goto(Duel(s0, p, q, d', x, y), q, y') == Duel(s0, p, q, d', x, y');
    ReachStep(s0, Duel(s0, p, q, d, x, y), Duel(s0, p, q, d', x, y'), q);
  }

  lemma ReachStep(s0: State, s: State, s': State, p: Pid)
    requires QuietlyReaches(s0, s) && ProcStep(s, s', p)
    ensures QuietlyReaches(s0, s')
  {
    var b: seq<State> :| QuietRun(b) && b[0] == s0 && b[|b| - 1] == s;
    assert Quiet(s, s');
    var b' := b + [s'];
    forall i: nat | i + 1 < |b'| ensures QuietStepAt(b', i) {
      if i + 1 < |b| { assert QuietStepAt(b, i); }
    }
    assert b'[0] == s0 && b'[|b'| - 1] == s';
  }

  lemma BothDecide(s0: State, p: Pid, q: Pid)
    requires Init(s0) && p in s0.procs && q in s0.procs && p != q
    requires s0.entry.Present? && s0.entry.dir.config == NoFile
    ensures QuietlyReaches(s0, Duel(s0, p, q, s0.entry.dir, AcquireLock(Final), AcquireLock(Final)))
  {
    var d := s0.entry.dir;
    assert QuietRun([s0]);
    assert Duel(s0, p, q, d, TestExists, TestExists) == s0 by {
      assert s0.procs[p].pc == TestExists && s0.procs[q].pc == TestExists;
    }
    assert [s0][0] == s0 && [s0][|[s0]| - 1] == s0;
    MoveP(s0, p, q, d, TestExists, TestExists, d, TestConfig);
    MoveQ(s0, p, q, d, TestConfig, TestExists, d, TestConfig);
    MoveP(s0, p, q, d, TestConfig, TestConfig, d, AcquireLock(Final));
    MoveQ(s0, p, q, d, AcquireLock(Final), TestConfig, d, AcquireLock(Final));
  }

  lemma FirstWrites(s0: State, p: Pid, q: Pid, d: Dir, y: Pc)
    requires p in s0.procs && q in s0.procs && p != q && d.config == NoFile && d.lock == None
    requires QuietlyReaches(s0, Duel(s0, p, q, d, AcquireLock(Final), y))
    ensures var c := Complete(s0.procs[p].proposal);
            QuietlyReaches(s0, Duel(s0, p, q, d.(config := c), WriteTag(Final), y))
  {
    var c := Complete(s0.procs[p].proposal);
    var held := d.(lock := Some(p));
    MoveP(s0, p, q, d, AcquireLock(Final), y, held, OpenConfig(Final));
    MoveP(s0, p, q, held, OpenConfig(Final), y, held.(config := Partial), WriteConfig(Final));
    MoveP(s0, p, q, held.(config := Partial), WriteConfig(Final), y, held.(config := Partial), CloseConfig(Final));
    MoveP(s0, p, q, held.(config := Partial), CloseConfig(Final), y, held.(config := c), ReleaseLock(Final));
    MoveP(s0, p, q, held.(config := c), ReleaseLock(Final), y, d.(config := c), WriteTag(Final));
  }

  lemma SecondFails(s0: State, p: Pid, q: Pid, d: Dir, x: Pc)
    requires p in s0.procs && q in s0.procs && p != q && d.config != NoFile && d.lock == None
    requires QuietlyReaches(s0, Duel(s0, p, q, d, x, AcquireLock(Final)))
    ensures QuietlyLosesRace(s0)
  {
    var held := d.(lock := Some(q));
    MoveQ(s0, p, q, d, x, AcquireLock(Final), held, OpenConfig(Final));
    MoveQ(s0, p, q, held, x, OpenConfig(Final), held, Unwind(Final, FileExists));
    MoveQ(s0, p, q, held, x, Unwind(Final, FileExists), d, Failed(FileExists));
    assert LostRace(Duel(s0, p, q, d, x, Failed(FileExists)), q);
  }

  /** If nobody outside the protocol interferes: two processes can collide in `_add_config` if and only
      if they find an existing directory that has no `config` file and no abandoned lock. */
  lemma QuietFallbackRaceExactly(s0: State, p: Pid, q: Pid)
    requires Init(s0) && p in s0.procs && q in s0.procs && p != q
    ensures QuietlyLosesRace(s0) <==>
            s0.entry.Present? && s0.entry.dir.config == NoFile && s0.entry.dir.lock == None
  {
    if s0.entry.Present? && s0.entry.dir.config == NoFile && s0.entry.dir.lock == None {
      var d := s0.entry.dir;
      BothDecide(s0, p, q);
      FirstWrites(s0, p, q, d, AcquireLock(Final));
      SecondFails(s0, p, q, d.(config := Complete(s0.procs[p].proposal)), WriteTag(Final));
    } else if QuietlyLosesRace(s0) {
      var s, l :| QuietlyReaches(s0, s) && LostRace(s, l);
      var b: seq<State> :| QuietRun(b) && b[0] == s0 && b[|b| - 1] == s;
      SafeRun(b, |b| - 1);
    }
  }

  // ---- The same race when somebody outside the protocol may create the directory ----

  ghost predicate Reaches(s0: State, s: State) {
    exists b: seq<State> :: Run(b) && b[0] == s0 && b[|b| - 1] == s
  }

  ghost predicate CanLoseRace(s0: State) {
    exists s, p :: Reaches(s0, s) && LostRace(s, p)
  }

  /** Once there is something at the cache path it stays, and nobody outside can interfere any more. */
  lemma {:induction false} RunIsQuiet(b: seq<State>, i: nat)
    requires Run(b) && i < |b| && !b[0].entry.Missing?
    ensures !b[i].entry.Missing? && (i + 1 < |b| ==> QuietStepAt(b, i))
  {
    if i > 0 {
      RunIsQuiet(b, i - 1);
      RunStep(b, i - 1);
      StaysThere(b[i - 1], b[i]);
    }
    if i + 1 < |b| { assert StepAt(b, i); }
  }

  lemma StaysThere(s: State, s': State)
    requires Inv(s) && Quiet(s, s') && !s.entry.Missing?
    ensures !s'.entry.Missing?
  {
    var p :| ProcStep(s, s', p) || CrashStep(s, s', p);
    if ProcStep(s, s', p) {
      assert ProcInv(s, p);
      StepEntryEffect(s, s', p);
    }
  }

  lemma QuietRunIsRun(b: seq<State>)
    requires QuietRun(b)
    ensures Run(b)
  {
    forall i: nat | i + 1 < |b| ensures StepAt(b, i) { assert QuietStepAt(b, i); }
  }

  lemma ReachesQuietly(s0: State, s: State)
    requires Reaches(s0, s) && !s0.entry.Missing?
    ensures QuietlyReaches(s0, s)
  {
    var b: seq<State> :| Run(b) && b[0] == s0 && b[|b| - 1] == s;
    forall i: nat | i + 1 < |b| ensures QuietStepAt(b, i) { RunIsQuiet(b, i); }
  }

  /** A run may begin with the creation of the directory by somebody else. */
  lemma AfterOutside(s0: State, s1: State, s: State)
    requires Init(s0) && OutsideStep(s0, s1) && Init(s1) && QuietlyReaches(s1, s)
    ensures Reaches(s0, s)
  {
    var b: seq<State> :| QuietRun(b) && b[0] == s1 && b[|b| - 1] == s;
    QuietRunIsRun(b);
    var b' := [s0] + b;
    forall i: nat | i + 1 < |b'| ensures StepAt(b', i) {
      if i > 0 { assert StepAt(b, i - 1); }
    }
    assert Run(b') && b'[|b'| - 1] == s;
  }

  /** "Opening a shared cache never fails because somebody else opened it first" is false, and this is
      exactly when: two processes can collide in `_add_config` if and only if the directory is missing,
      so that somebody else can still create it empty, or is there without a `config` file and without
      an abandoned lock. */
  lemma FallbackRaceExactly(s0: State, p: Pid, q: Pid)
    requires Init(s0) && p in s0.procs && q in s0.procs && p != q
    ensures CanLoseRace(s0) <==>
            || s0.entry.Missing?
            || (s0.entry.Present? && s0.entry.dir.config == NoFile && s0.entry.dir.lock == None)
  {
    if s0.entry.Missing? {
      var s1 := s0.(entry := Present(Dir(None, NoFile, false)));
      QuietFallbackRaceExactly(s1, p, q);
      var s, l :| QuietlyReaches(s1, s) && LostRace(s, l);
      AfterOutside(s0, s1, s);
    } else {
      QuietFallbackRaceExactly(s0, p, q);
      if CanLoseRace(s0) {
        var s, l :| Reaches(s0, s) && LostRace(s, l);
        ReachesQuietly(s0, s);
      }
      if QuietlyLosesRace(s0) {
        var s, l :| QuietlyReaches(s0, s) && LostRace(s, l);
        var b: seq<State> :| QuietRun(b) && b[0] == s0 && b[|b| - 1] == s;
        QuietRunIsRun(b);
        assert Reaches(s0, s);
      }
    }
  }
}
