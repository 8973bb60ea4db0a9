/** Where pushes and retrievals end: which ends a run allows, and which a job reaches on its own. */
module CacheProgress {
  import opened Std
  import opened CachePaths
  import opened CachePublish
  import opened CacheRetrieval

  // ---- What the end of a retrieval says ----

  /** In a dry run nothing is opened, and otherwise something is. */
  predicate EndFits(s: State, job: Job)
    requires job.Retrieve?
  {
    match job.retrieve
    case RTest | RMiss => true
    case RDryRun => !job.execute && EntryName(job.loc) in s.names
    case ROpen | RCopy(_, _) | RDone(_) | RRaised => job.execute && EntryName(job.loc) in s.names
  }

  lemma StepFits(s: State, s': State, k: JobId, j: JobId)
    requires StartStep(s, s', k) || PushStep(s, s', k) || RetrieveStep(s, s', k)
    requires Inv(s) && FilesEffect(s, s') && j in s'.jobs && s'.jobs[j].Retrieve?
    requires j in s.jobs && s.jobs[j].Retrieve? ==> EndFits(s, s.jobs[j])
    ensures EndFits(s', s'.jobs[j])
  {
    if RetrieveStep(s, s', k) {
      RetrieveShape(s, s', k);
      if j == k { OwnFits(s, s', j); }
    } else if PushStep(s, s', k) {
      PushHasShape(s, s', k);
    }
  }

  lemma OwnFits(s: State, s': State, j: JobId)
    requires RetrieveStep(s, s', j) && EndFits(s, s.jobs[j])
    ensures j in s'.jobs && s'.jobs[j].Retrieve? && s'.names == s.names && EndFits(s', s'.jobs[j])
  {
    RetrieveOnlyJob(s, s', j);
  }

  /** In any run a retrieval that has found the cache file goes on to open and copy it if and only if
      actions are executed, and ends in a dry run if and only if they are not. */
  lemma {:induction false} RetrievalFits(b: seq<State>, i: nat, j: JobId)
    requires Run(b) && i < |b| && j in b[i].jobs && b[i].jobs[j].Retrieve?
    ensures EndFits(b[i], b[i].jobs[j])
  {
    if i > 0 {
      RunInv(b, i - 1);
      RunStep(b, i - 1);
      assert StepAt(b, i - 1);
      var s, s' := b[i - 1], b[i];
      if j in s.jobs && s.jobs[j].Retrieve? { RetrievalFits(b, i - 1, j); }
      var k :| StartStep(s, s', k) || PushStep(s, s', k) || RetrieveStep(s, s', k);
      StepFits(s, s', k, j);
    }
  }

  /** The ways a retrieval ends, in any run: it misses, and then there was no cache file when it looked;
      it ends a dry run; it raises; or it has delivered, whole, what somebody pushed under its signature. */
  lemma RetrievalEnds(b: seq<State>, i: nat, j: JobId)
    requires Run(b) && i < |b| && HexSigs(b[i]) && j in b[i].jobs && b[i].jobs[j].Retrieve?
    ensures var job := b[i].jobs[j];
            match job.retrieve
            case RMiss => exists h: nat :: MissedAt(b, h, i, j)
            case RDryRun => !job.execute
            case RDone(got) => job.execute && Pushed(b[i], job.sig, got)
            case RRaised => job.execute
            case _ => true
  {
    RetrievalFits(b, i, j);
    match b[i].jobs[j].retrieve {
      case RMiss => MissesLook(b, i, j);
      case RDone(_) => DeliveredWasPushed(b, i, j);
      case _ =>
    }
  }

  ghost predicate MissedAt(b: seq<State>, h: nat, i: nat, j: JobId) {
    h < i < |b| && j in b[h].jobs && b[h].jobs[j].Retrieve? && b[h].jobs[j].retrieve.RTest? &&
    EntryName(b[h].jobs[j].loc) !in b[h].names
  }

  lemma {:induction false} MissesLook(b: seq<State>, i: nat, j: JobId)
    requires Run(b) && i < |b| && j in b[i].jobs && b[i].jobs[j].Retrieve? && b[i].jobs[j].retrieve.RMiss?
    ensures exists h: nat :: MissedAt(b, h, i, j)
  {
    if i > 0 {
      RunInv(b, i - 1);
      RunStep(b, i - 1);
      assert StepAt(b, i - 1);
      var s, s' := b[i - 1], b[i];
      var k :| StartStep(s, s', k) || PushStep(s, s', k) || RetrieveStep(s, s', k);
      StepMisses(s, s', k, j);
      if s.jobs[j].retrieve.RMiss? {
        MissesLook(b, i - 1, j);
        var h: nat :| MissedAt(b, h, i - 1, j);
        assert MissedAt(b, h, i, j);
      } else {
        assert MissedAt(b, i - 1, i, j);
      }
    }
  }

  lemma StepMisses(s: State, s': State, k: JobId, j: JobId)
    requires StartStep(s, s', k) || PushStep(s, s', k) || RetrieveStep(s, s', k)
    requires Inv(s) && j in s'.jobs && s'.jobs[j].Retrieve? && s'.jobs[j].retrieve.RMiss?
    ensures j in s.jobs && s.jobs[j].Retrieve?
    ensures s.jobs[j].retrieve.RMiss? || (s.jobs[j].retrieve.RTest? && EntryName(s.jobs[j].loc) !in s.names)
  {
    if RetrieveStep(s, s', k) {
      RetrieveShape(s, s', k);
      if j == k { OwnMisses(s, s', j); }
    } else if PushStep(s, s', k) {
      PushHasShape(s, s', k);
    }
  }

  lemma OwnMisses(s: State, s': State, j: JobId)
    requires RetrieveStep(s, s', j) && j in s'.jobs && s'.jobs[j].Retrieve? && s'.jobs[j].retrieve.RMiss?
    ensures s.jobs[j].retrieve.RTest? && EntryName(s.jobs[j].loc) !in s.names
  {}

  // ---- Jobs on their own ----

  ghost predicate JobStep(s: State, s': State, j: JobId) { PushStep(s, s', j) || RetrieveStep(s, s', j) }

  ghost predicate AloneAt(b: seq<State>, i: nat, j: JobId)
    requires i + 1 < |b|
  {
    JobStep(b[i], b[i + 1], j)
  }

  /** From `s` to `s'` by steps of job `j` and of nobody else. */
  ghost predicate Goes(b: seq<State>, s: State, s': State, j: JobId) {
    && |b| > 0 && b[0] == s && b[|b| - 1] == s'
    && forall i: nat | i + 1 < |b| :: AloneAt(b, i, j)
  }

  ghost predicate CanGo(s: State, s': State, j: JobId) {
    exists b :: Goes(b, s, s', j)
  }

  lemma GoNowhere(s: State, j: JobId)
    ensures CanGo(s, s, j)
  {
    assert Goes([s], s, s, j);
  }

  lemma GoOn(s: State, m: State, s': State, j: JobId)
    requires CanGo(s, m, j) && JobStep(m, s', j)
    ensures CanGo(s, s', j)
  {
    var b :| Goes(b, s, m, j);
    var b' := b + [s'];
    forall i: nat | i + 1 < |b'| ensures AloneAt(b', i, j) {
      if i + 1 < |b| { assert AloneAt(b, i, j); }
    }
    assert Goes(b', s, s', j);
  }

  /** The retrieval `j` can end like this on its own. */
  ghost predicate CanEnd(s: State, j: JobId, end: RetrievePc) {
    exists s' :: CanGo(s, s', j) && j in s'.jobs && s'.jobs[j].Retrieve? && s'.jobs[j].retrieve == end
  }

  /** How far the retrieval `j` can be if it began in `s` and was alone. */
  predicate Along(s: State, t: State, j: JobId)
    requires j in s.jobs && s.jobs[j].Retrieve?
  {
    && t.names == s.names && t.data == s.data && j in t.jobs
    && t.jobs[j] == s.jobs[j].(retrieve := if t.jobs[j].Retrieve? then t.jobs[j].retrieve else RTest)
    && var entry := EntryName(s.jobs[j].loc);
       var there := entry in s.names && s.names[entry] in s.data;
       match t.jobs[j].retrieve
       case RTest => true
       case RMiss => entry !in s.names
       case RDryRun => entry in s.names && !s.jobs[j].execute
       case ROpen | RRaised => there && s.jobs[j].execute
       case RCopy(ino, got) => there && s.jobs[j].execute && ino == s.names[entry] && got <= s.data[ino]
       case RDone(got) => there && s.jobs[j].execute && got == s.data[s.names[entry]]
  }

  lemma StepAlong(s: State, t: State, t': State, j: JobId)
    requires NamesInv(s) && j in s.jobs && s.jobs[j].Retrieve? && Along(s, t, j) && JobStep(t, t', j)
    ensures Along(s, t', j)
  {
    assert RetrieveStep(t, t', j);
    RetrieveShape(t, t', j);
    RetrieveOnlyJob(t, t', j);
  }

  lemma {:induction false} GoesAlong(b: seq<State>, j: JobId, i: nat)
    requires |b| > 0 && (forall h: nat | h + 1 < |b| :: AloneAt(b, h, j)) && i < |b|
    requires NamesInv(b[0]) && j in b[0].jobs && b[0].jobs[j].Retrieve? && b[0].jobs[j].retrieve.RTest?
    ensures Along(b[0], b[i], j)
  {
    if i > 0 {
      GoesAlong(b, j, i - 1);
      assert AloneAt(b, i - 1, j);
      StepAlong(b[0], b[i - 1], b[i], j);
    }
  }

  lemma RetrieveMove(s: State, j: JobId, pc: RetrievePc, pc': RetrievePc)
    requires j in s.jobs && s.jobs[j].Retrieve?
    requires CanGo(s, WithJob(s, j, s.jobs[j].(retrieve := pc)), j)
    requires RetrieveStep(WithJob(s, j, s.jobs[j].(retrieve := pc)), WithJob(s, j, s.jobs[j].(retrieve := pc')), j)
    ensures CanGo(s, WithJob(s, j, s.jobs[j].(retrieve := pc')), j)
  {
    GoOn(s, WithJob(s, j, s.jobs[j].(retrieve := pc)), WithJob(s, j, s.jobs[j].(retrieve := pc')), j);
  }

  lemma ReachDone(s: State, j: JobId, ino: Ino)
    requires j in s.jobs && s.jobs[j].Retrieve? && ino in s.data
    requires CanGo(s, WithJob(s, j, s.jobs[j].(retrieve := RCopy(ino, ""))), j)
    ensures CanGo(s, WithJob(s, j, s.jobs[j].(retrieve := RDone(s.data[ino]))), j)
  {
    var all := s.data[ino];
    if all != "" {
      var t := WithJob(s, j, s.jobs[j].(retrieve := RCopy(ino, "")));
      var t' := WithJob(s, j, s.jobs[j].(retrieve := RCopy(ino, all)));
      assert "" + all[0..|all|] == all;
      assert WithJob(t, j, t.jobs[j].(retrieve := RCopy(ino, "" + all[|""|..|all|]))) == t';
      assert ReadSome(t, t', j, t.jobs[j], ino, "");
      RetrieveMove(s, j, RCopy(ino, ""), RCopy(ino, all));
    }
    RetrieveMove(s, j, RCopy(ino, all), RDone(all));
  }

  /** From any state of any run, a retrieval that is about to look ends on its own as follows, and in no
      other way: it misses if there is no cache file; in a dry run it ends there if there is one; otherwise
      it delivers exactly the bytes of the cache file, or raises. */
  lemma LoneRetrievalExactly(b: seq<State>, i: nat, j: JobId, end: RetrievePc)
    requires Run(b) && i < |b| && j in b[i].jobs && b[i].jobs[j].Retrieve? && b[i].jobs[j].retrieve.RTest?
    requires end.RMiss? || end.RDryRun? || end.RDone? || end.RRaised?
    ensures var s, entry, execute := b[i], EntryName(b[i].jobs[j].loc), b[i].jobs[j].execute;
            CanEnd(s, j, end) <==>
            match end
            case RMiss => entry !in s.names
            case RDryRun => entry in s.names && !execute
            case RDone(got) => entry in s.names && execute && s.names[entry] in s.data && got == s.data[s.names[entry]]
            case _ => entry in s.names && execute
  {
    RunInv(b, i);
    LoneRetrievalEnds(b[i], j);
    if CanEnd(b[i], j, end) { OnlyThoseEnds(b[i], j, end); }
  }

  lemma LoneRetrievalEnds(s: State, j: JobId)
    requires NamesInv(s) && j in s.jobs && s.jobs[j].Retrieve? && s.jobs[j].retrieve.RTest?
    ensures var entry, execute := EntryName(s.jobs[j].loc), s.jobs[j].execute;
            && (entry !in s.names ==> CanEnd(s, j, RMiss))
            && (entry in s.names && !execute ==> CanEnd(s, j, RDryRun))
            && (entry in s.names && execute ==> CanEnd(s, j, RDone(s.data[s.names[entry]])) && CanEnd(s, j, RRaised))
  {
    var job, entry := s.jobs[j], EntryName(s.jobs[j].loc);
    assert WithJob(s, j, job.(retrieve := RTest)) == s;
    GoNowhere(s, j);
    if entry !in s.names {
      RetrieveMove(s, j, RTest, RMiss);
      EndReached(s, j, RMiss);
    } else if !job.execute {
      RetrieveMove(s, j, RTest, RDryRun);
      EndReached(s, j, RDryRun);
    } else {
      RetrieveMove(s, j, RTest, ROpen);
      RetrieveMove(s, j, ROpen, RRaised);
      EndReached(s, j, RRaised);
      RetrieveMove(s, j, ROpen, RCopy(s.names[entry], ""));
      ReachDone(s, j, s.names[entry]);
      EndReached(s, j, RDone(s.data[s.names[entry]]));
    }
  }

  lemma OnlyThoseEnds(s: State, j: JobId, end: RetrievePc)
    requires NamesInv(s) && j in s.jobs && s.jobs[j].Retrieve? && s.jobs[j].retrieve.RTest? && CanEnd(s, j, end)
    ensures var entry, execute := EntryName(s.jobs[j].loc), s.jobs[j].execute;
            match end
            case RMiss => entry !in s.names
            case RDryRun => entry in s.names && !execute
            case RDone(got) => entry in s.names && execute && got == s.data[s.names[entry]]
            case RRaised => entry in s.names && execute
            case _ => true
  {
    var s' :| CanGo(s, s', j) && j in s'.jobs && s'.jobs[j].Retrieve? && s'.jobs[j].retrieve == end;
    var r :| Goes(r, s, s', j);
    GoesAlong(r, j, |r| - 1);
  }

  lemma EndReached(s: State, j: JobId, end: RetrievePc)
    requires j in s.jobs && s.jobs[j].Retrieve?
    ensures CanGo(s, WithJob(s, j, s.jobs[j].(retrieve := end)), j) ==> CanEnd(s, j, end)
  {
    var s' := WithJob(s, j, s.jobs[j].(retrieve := end));
    assert j in s'.jobs && s'.jobs[j].Retrieve? && s'.jobs[j].retrieve == end;
  }

  // ---- A push on its own ----

  lemma PushMove(s: State, t: State, j: JobId, t': State)
    requires CanGo(s, t, j) && PushStep(t, t', j)
    ensures CanGo(s, t', j)
  {
    GoOn(s, t, t', j);
  }

  lemma FreeFile(data: map<Ino, Bytes>) returns (ino: Ino)
    ensures ino !in data
  {
    ino := Above(data.Keys);
  }

  lemma Above(inos: set<Ino>) returns (top: Ino)
    ensures forall ino | ino in inos :: ino < top
  {
    if inos == {} {
      top := 0;
    } else {
      var x :| x in inos;
      var rest := Above(inos - {x});
      assert forall ino | ino in inos :: ino == x || ino in inos - {x};
      top := if x < rest then rest else x + 1;
    }
  }

  /** The cache file is there and holds what the job pushes, and the temporary name is gone. */
  predicate Published(s: State, j: JobId)
    requires j in s.jobs && s.jobs[j].Push?
  {
    var job := s.jobs[j];
    && job.push.PPublished? && TempName(job.loc, job.uuid) !in s.names
    && EntryName(job.loc) in s.names && s.names[EntryName(job.loc)] in s.data
    && s.data[s.names[EntryName(job.loc)]] == job.content
  }

  ghost predicate CanPublish(s: State, j: JobId) {
    exists s' :: CanGo(s, s', j) && j in s'.jobs && s'.jobs[j].Push? && Published(s', j)
  }

  ghost predicate CanStop(s: State, j: JobId, end: PushPc) {
    exists s' :: CanGo(s, s', j) && j in s'.jobs && s'.jobs[j].Push? && s'.jobs[j].push == end
  }

  lemma CopyAndPublish(s: State, t: State, j: JobId, ino: Ino)
    requires j in t.jobs && t.jobs[j].Push? && t.jobs[j].push == PCopy(ino) && CanGo(s, t, j)
    requires ino in t.data && t.data[ino] == ""
    requires var temp := TempName(t.jobs[j].loc, t.jobs[j].uuid); temp in t.names && t.names[temp] == ino
    ensures CanPublish(s, j)
  {
    var job := t.jobs[j];
    var all, temp, entry := job.content, TempName(job.loc, job.uuid), EntryName(job.loc);
    var t1 := t.(data := t.data[ino := all]);
    assert all[..|all|] == all;
    if all == "" {
      assert t1 == t;
    } else {
      assert CopySome(t, t1, job, ino);
      PushMove(s, t, j, t1);
    }
    var t2 := WithJob(t1, j, job.(push := PRename));
    PushMove(s, t1, j, t2);
    var t3 := WithJob(t2, j, job.(push := PPublished)).(names := (t2.names - {temp})[entry := t2.names[temp]]);
    PushMove(s, t2, j, t3);
    assert Published(t3, j);
  }

  lemma StopReached(s: State, t: State, j: JobId)
    requires CanGo(s, t, j) && j in t.jobs && t.jobs[j].Push?
    ensures CanStop(s, j, t.jobs[j].push)
  {}

  lemma LonePushEnds(s: State, j: JobId)
    requires NamesInv(s) && j in s.jobs && s.jobs[j].Push? && s.jobs[j].push.PTest?
    ensures var entry := EntryName(s.jobs[j].loc);
            && (entry in s.names ==> CanStop(s, j, PSkipped))
            && (entry !in s.names ==> CanPublish(s, j) && CanStop(s, j, PWarned) && CanStop(s, j, PRaised))
  {
    var job := s.jobs[j];
    var temp, entry := TempName(job.loc, job.uuid), EntryName(job.loc);
    GoNowhere(s, j);
    if entry in s.names {
      var t := WithJob(s, j, job.(push := PSkipped));
      PushMove(s, s, j, t);
      StopReached(s, t, j);
    } else {
      var t1, t2 := WithJob(s, j, job.(push := PMakeDirs)), WithJob(s, j, job.(push := POpen));
      PushMove(s, s, j, t1);
      PushMove(s, t1, j, WithJob(t1, j, job.(push := PRaised)));
      StopReached(s, WithJob(t1, j, job.(push := PRaised)), j);
      assert WithJob(t1, j, t1.jobs[j].(push := POpen)) == t2;
      PushMove(s, t1, j, t2);
      PushMove(s, t2, j, WithJob(t2, j, job.(push := PWarned)));
      StopReached(s, WithJob(t2, j, job.(push := PWarned)), j);
      OpenAndPublish(s, t2, j);
    }
  }

  lemma OpenAndPublish(s: State, t: State, j: JobId)
    requires NamesInv(t) && j in t.jobs && t.jobs[j].Push? && t.jobs[j].push.POpen? && CanGo(s, t, j)
    ensures CanPublish(s, j)
  {
    var job := t.jobs[j];
    var temp := TempName(job.loc, job.uuid);
    if temp in t.names {
      var ino := t.names[temp];
      var t' := WithJob(t, j, job.(push := PCopy(ino))).(data := t.data[ino := ""]);
      PushMove(s, t, j, t');
      CopyAndPublish(s, t', j, ino);
    } else {
      var ino := FreeFile(t.data);
      var t' := WithJob(t, j, job.(push := PCopy(ino))).(data := t.data[ino := ""], names := t.names[temp := ino]);
      assert OpenForCopy(t, t', j, job, temp);
      PushMove(s, t, j, t');
      CopyAndPublish(s, t', j, ino);
    }
  }

  /** How far the push `j` can be if it began in `s` and was alone. */
  predicate PushAlong(s: State, t: State, j: JobId)
    requires j in s.jobs && s.jobs[j].Push?
  {
    && j in t.jobs && t.jobs[j].Push? && t.jobs[j] == s.jobs[j].(push := t.jobs[j].push)
    && match t.jobs[j].push
       case PTest => t.names == s.names
       case PSkipped => EntryName(s.jobs[j].loc) in s.names
       case _ => EntryName(s.jobs[j].loc) !in s.names
  }

  lemma PushStepAlong(s: State, t: State, t': State, j: JobId)
    requires j in s.jobs && s.jobs[j].Push? && PushAlong(s, t, j) && PushStep(t, t', j)
    ensures PushAlong(s, t', j)
  {
    PushOnward(t, t', j);
  }

  lemma PushOnward(t: State, t': State, j: JobId)
    requires PushStep(t, t', j)
    ensures j in t.jobs && t.jobs[j].Push? && j in t'.jobs && t'.jobs[j].Push?
    ensures t'.jobs[j] == t.jobs[j].(push := t'.jobs[j].push)
    ensures if t.jobs[j].push.PTest? then
              t'.names == t.names && !t'.jobs[j].push.PTest? &&
              (t'.jobs[j].push.PSkipped? <==> EntryName(t.jobs[j].loc) in t.names)
            else !t'.jobs[j].push.PTest? && !t'.jobs[j].push.PSkipped?
  {}

  lemma {:induction false} PushGoesAlong(b: seq<State>, j: JobId, i: nat)
    requires |b| > 0 && (forall h: nat | h + 1 < |b| :: AloneAt(b, h, j)) && i < |b|
    requires j in b[0].jobs && b[0].jobs[j].Push? && b[0].jobs[j].push.PTest?
    ensures PushAlong(b[0], b[i], j)
  {
    if i > 0 {
      PushGoesAlong(b, j, i - 1);
      assert AloneAt(b, i - 1, j);
      assert PushStep(b[i - 1], b[i], j);
      PushStepAlong(b[0], b[i - 1], b[i], j);
    }
  }

  lemma OnlyThoseStops(s: State, s': State, j: JobId)
    requires j in s.jobs && s.jobs[j].Push? && s.jobs[j].push.PTest? && CanGo(s, s', j)
    ensures PushAlong(s, s', j)
  {
    var r :| Goes(r, s, s', j);
    PushGoesAlong(r, j, |r| - 1);
  }

  /** From any state of any run, a push that is about to look can on its own publish exactly what it
      pushes, or end with a warning or an exception, if and only if there is no cache file; and it leaves
      everything to the file that is there if and only if there is one. */
  lemma LonePushExactly(b: seq<State>, i: nat, j: JobId)
    requires Run(b) && i < |b| && j in b[i].jobs && b[i].jobs[j].Push? && b[i].jobs[j].push.PTest?
    ensures var s, there := b[i], EntryName(b[i].jobs[j].loc) in b[i].names;
            && (CanPublish(s, j) <==> !there) && (CanStop(s, j, PPublished) <==> !there)
            && (CanStop(s, j, PSkipped) <==> there)
            && (CanStop(s, j, PWarned) <==> !there) && (CanStop(s, j, PRaised) <==> !there)
  {
    RunInv(b, i);
    LonePushEnds(b[i], j);
    LonePushOnlyEnds(b[i], j);
  }

  lemma LonePushOnlyEnds(s: State, j: JobId)
    requires j in s.jobs && s.jobs[j].Push? && s.jobs[j].push.PTest?
    ensures CanPublish(s, j) ==> CanStop(s, j, PPublished)
    ensures forall end | CanStop(s, j, end) && !end.PTest? :: end.PSkipped? <==> EntryName(s.jobs[j].loc) in s.names
  {
    forall end | CanStop(s, j, end) && !end.PTest? ensures end.PSkipped? <==> EntryName(s.jobs[j].loc) in s.names {
      var s' :| CanGo(s, s', j) && j in s'.jobs && s'.jobs[j].Push? && s'.jobs[j].push == end;
      OnlyThoseStops(s, s', j);
    }
    if CanPublish(s, j) {
      var s' :| CanGo(s, s', j) && j in s'.jobs && s'.jobs[j].Push? && Published(s', j);
      StopReached(s, s', j);
    }
  }

  /** Whoever else is at work: at the call that publishes, the cache file becomes exactly what is pushed. */
  lemma PublishedWhole(b: seq<State>, i: nat, j: JobId)
    requires Run(b) && i + 1 < |b| && j in b[i].jobs && b[i].jobs[j].Push? && !b[i].jobs[j].push.PPublished?
    requires j in b[i + 1].jobs && b[i + 1].jobs[j].Push? && b[i + 1].jobs[j].push.PPublished?
    ensures Published(b[i + 1], j) && b[i + 1].jobs[j].content == b[i].jobs[j].content
  {
    RunInv(b, i);
    RunStep(b, i);
    assert StepAt(b, i);
    var s, s' := b[i], b[i + 1];
    assert JobInv(s, j);
    var k :| StartStep(s, s', k) || PushStep(s, s', k) || RetrieveStep(s, s', k);
    PublisherMoves(s, s', k, j);
    PublishStep(s, s', j);
  }

  lemma PublisherMoves(s: State, s': State, k: JobId, j: JobId)
    requires StartStep(s, s', k) || PushStep(s, s', k) || RetrieveStep(s, s', k)
    requires Inv(s) && j in s.jobs && s.jobs[j].Push? && j in s'.jobs && s'.jobs[j] != s.jobs[j]
    ensures PushStep(s, s', j)
  {
    if RetrieveStep(s, s', k) {
      RetrieveShape(s, s', k);
    } else if PushStep(s, s', k) {
      PushHasShape(s, s', k);
    }
  }

  lemma PublishStep(s: State, s': State, j: JobId)
    requires PushStep(s, s', j) && JobInv(s, j) && NamesInv(s)
    requires j in s'.jobs && s'.jobs[j].Push? && s'.jobs[j].push.PPublished? && !s.jobs[j].push.PPublished?
    ensures Published(s', j)
  {}
}
