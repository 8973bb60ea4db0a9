/** Pushing to and retrieving from a shared build cache, as a protocol between any number of jobs.

    The file system maps names to files (inodes) and files to bytes.  A push tests for the cache
    file, copies the target to a temporary name in pieces, and renames it into place; a retrieval
    tests for the cache file, opens it, and copies it out in pieces.  Any call may fail.  Different
    jobs may push different contents under one signature at the same time.  As the source assumes,
    a process has at most one push in flight for a cache file, because the temporary name is made
    of the cache file and the process's uuid. */
module CachePublish {
  import opened Std
  import opened CacheConfig
  import opened CachePaths

  type Bytes = string
  type Sig = string
  type Uuid = string
  type Ino = nat
  type JobId = nat

  /** `TempName` stands for the temporary path of a location; `CachePaths.TempPathsDistinct` shows
      that distinct names are distinct paths. */
  datatype Name = EntryName(loc: Location) | TempName(loc: Location, uuid: Uuid)

  datatype PushPc =
    | PTest | PMakeDirs | POpen | PCopy(ino: Ino) | PRename
    | PSkipped | PPublished | PWarned | PRaised

  datatype RetrievePc =
    | RTest | ROpen | RCopy(ino: Ino, got: Bytes)
    | RMiss | RDryRun | RDone(got: Bytes) | RRaised

  datatype Job =
    | Push(uuid: Uuid, sig: Sig, content: Bytes, loc: Location, push: PushPc)
    | Retrieve(uuid: Uuid, sig: Sig, loc: Location, execute: bool, retrieve: RetrievePc)

  predicate Live(pc: PushPc) { pc.PTest? || pc.PMakeDirs? || pc.POpen? || pc.PCopy? || pc.PRename? }

  /** `configs` is the configuration each process holds since it opened the cache. */
  datatype State = State(root: string, configs: map<Uuid, Config>, names: map<Name, Ino>, data: map<Ino, Bytes>,
                         jobs: map<JobId, Job>)

  function WithJob(s: State, j: JobId, job: Job): State { s.(jobs := s.jobs[j := job]) }

  /** Job `j` copies to the same temporary name as a push of `uuid` to `loc`. */
  predicate SameTemp(job: Job, uuid: Uuid, loc: Location) {
    job.Push? && Live(job.push) && job.uuid == uuid && job.loc == loc
  }

  ghost predicate StartStep(s: State, s': State, j: JobId) {
    && j !in s.jobs && j in s'.jobs
    && var job := s'.jobs[j];
       && s' == WithJob(s, j, job)
       && job.uuid in s.configs && job.loc == CachePath(s.root, s.configs[job.uuid], job.sig)
       && match job
          case Push(uuid, _, _, loc, pc) => pc == PTest && forall k | k in s.jobs :: !SameTemp(s.jobs[k], uuid, loc)
          case Retrieve(_, _, _, _, pc) => pc == RTest
  }

  ghost predicate PushStep(s: State, s': State, j: JobId) {
    && j in s.jobs && s.jobs[j].Push?
    && var job := s.jobs[j];
       var entry, temp := EntryName(job.loc), TempName(job.loc, job.uuid);
       match job.push
       case PTest => s' == WithJob(s, j, job.(push := if entry in s.names then PSkipped else PMakeDirs))
       case PMakeDirs => s' == WithJob(s, j, job.(push := POpen)) || s' == WithJob(s, j, job.(push := PRaised))
       case POpen =>
         || s' == WithJob(s, j, job.(push := PWarned))
         || OpenForCopy(s, s', j, job, temp)
       case PCopy(ino) =>
         || s' == WithJob(s, j, job.(push := PWarned))
         || CopySome(s, s', job, ino)
         || (ino in s.data && s.data[ino] == job.content && s' == WithJob(s, j, job.(push := PRename)))
       case PRename =>
         || s' == WithJob(s, j, job.(push := PWarned))
         || (temp in s.names &&
             s' == WithJob(s, j, job.(push := PPublished)).(names := (s.names - {temp})[entry := s.names[temp]]))
       case _ => false
  }

  /** Opening the copy truncates a left-over temporary file, or creates a new one. */
  ghost predicate OpenForCopy(s: State, s': State, j: JobId, job: Job, temp: Name)
    requires job.Push?
  {
    if temp in s.names then
      s' == WithJob(s, j, job.(push := PCopy(s.names[temp]))).(data := s.data[s.names[temp] := ""])
    else
      exists ino: Ino :: ino !in s.data &&
        s' == WithJob(s, j, job.(push := PCopy(ino))).(data := s.data[ino := ""], names := s.names[temp := ino])
  }

  ghost predicate CopySome(s: State, s': State, job: Job, ino: Ino)
    requires job.Push?
  {
    ino in s.data &&
    exists n: nat :: |s.data[ino]| < n <= |job.content| && s' == s.(data := s.data[ino := job.content[..n]])
  }

  ghost predicate RetrieveStep(s: State, s': State, j: JobId) {
    && j in s.jobs && s.jobs[j].Retrieve?
    && var job := s.jobs[j];
       var entry := EntryName(job.loc);
       match job.retrieve
       case RTest =>
         s' == WithJob(s, j, job.(retrieve := if entry !in s.names then RMiss
                                              else if job.execute then ROpen else RDryRun))
       case ROpen =>
         || s' == WithJob(s, j, job.(retrieve := RRaised))
         || (entry in s.names && s' == WithJob(s, j, job.(retrieve := RCopy(s.names[entry], ""))))
       case RCopy(ino, got) =>
         || s' == WithJob(s, j, job.(retrieve := RRaised))
         || (ino in s.data && if |got| < |s.data[ino]| then ReadSome(s, s', j, job, ino, got)
                              else s' == WithJob(s, j, job.(retrieve := RDone(got))))
       case _ => false
  }

  ghost predicate ReadSome(s: State, s': State, j: JobId, job: Job, ino: Ino, got: Bytes)
    requires job.Retrieve? && ino in s.data
  {
    exists n: nat :: |got| < n <= |s.data[ino]| &&
      s' == WithJob(s, j, job.(retrieve := RCopy(ino, got + s.data[ino][|got|..n])))
  }

  ghost predicate Next(s: State, s': State) {
    exists j :: StartStep(s, s', j) || PushStep(s, s', j) || RetrieveStep(s, s', j)
  }

  /** A cache nobody has pushed to yet. */
  predicate Init(s: State) {
    s.names == map[] && s.jobs == map[]
  }

  ghost predicate StepAt(b: seq<State>, i: nat)
    requires i + 1 < |b|
  {
    Next(b[i], b[i + 1])
  }

  ghost predicate Run(b: seq<State>) {
    |b| > 0 && Init(b[0]) && forall i: nat | i + 1 < |b| :: StepAt(b, i)
  }

  // ---- The inductive invariant ----

  /** Some job was started to push exactly these bytes under this signature. */
  ghost predicate Pushed(s: State, sig: Sig, content: Bytes) {
    exists j :: j in s.jobs && s.jobs[j].Push? && s.jobs[j].sig == sig && s.jobs[j].content == content
  }

  /** Every name has a file, and no file has two names. */
  predicate NamesInv(s: State) {
    && (forall n | n in s.names :: s.names[n] in s.data)
    && (forall m, n | m in s.names && n in s.names && s.names[m] == s.names[n] :: m == n)
  }

  /** A visible cache entry is a complete copy of something pushed to that very location. */
  ghost predicate EntryInv(s: State, loc: Location) {
    EntryName(loc) in s.names && s.names[EntryName(loc)] in s.data ==>
      PushedTo(s, loc, s.data[s.names[EntryName(loc)]])
  }

  ghost predicate PushedTo(s: State, loc: Location, content: Bytes) {
    exists j :: j in s.jobs && s.jobs[j].Push? && s.jobs[j].loc == loc && s.jobs[j].content == content
  }

  /** Nobody can write the file any more: it does not have a temporary name. */
  predicate Frozen(s: State, ino: Ino) {
    ino in s.data && forall n | n in s.names && n.TempName? :: s.names[n] != ino
  }

  ghost predicate JobInv(s: State, j: JobId)
    requires j in s.jobs
  {
    var job := s.jobs[j];
    && job.uuid in s.configs && job.loc == CachePath(s.root, s.configs[job.uuid], job.sig)
    && match job
       case Push(uuid, sig, content, loc, pc) =>
         var temp := TempName(loc, uuid);
         && (pc.PCopy? ==> temp in s.names && s.names[temp] == pc.ino && pc.ino in s.data && s.data[pc.ino] <= content)
         && (pc.PRename? ==> temp in s.names && s.names[temp] in s.data && s.data[s.names[temp]] == content)
         && (pc.PPublished? || pc.PSkipped? ==> EntryName(loc) in s.names)
       case Retrieve(uuid, sig, loc, execute, pc) =>
         && (pc.ROpen? ==> EntryName(loc) in s.names)
         && (pc.RCopy? ==> Frozen(s, pc.ino) && pc.got <= s.data[pc.ino] && PushedTo(s, loc, s.data[pc.ino]))
         && (pc.RDone? ==> PushedTo(s, loc, pc.got))
  }

  predicate OnePushPerTemp(s: State) {
    forall j, k | j in s.jobs && k in s.jobs && s.jobs[j].Push? && Live(s.jobs[j].push) &&
                  SameTemp(s.jobs[k], s.jobs[j].uuid, s.jobs[j].loc) :: j == k
  }

  ghost predicate Inv(s: State) {
    && NamesInv(s) && OnePushPerTemp(s)
    && (forall loc :: EntryInv(s, loc))
    && (forall j | j in s.jobs :: JobInv(s, j))
  }

  // ---- What one step may change ----

  /** Jobs are never forgotten and never change what they push. */
  ghost predicate JobsGrow(s: State, s': State) {
    forall j | j in s.jobs ::
      && j in s'.jobs && s'.jobs[j].Push? == s.jobs[j].Push? && s'.jobs[j].loc == s.jobs[j].loc
      && s'.jobs[j].sig == s.jobs[j].sig && s'.jobs[j].uuid == s.jobs[j].uuid
      && (s.jobs[j].Push? ==> s'.jobs[j].content == s.jobs[j].content)
  }

  lemma PushedToGrows(s: State, s': State, loc: Location, content: Bytes)
    requires JobsGrow(s, s') && PushedTo(s, loc, content)
    ensures PushedTo(s', loc, content)
  {
    var j :| j in s.jobs && s.jobs[j].Push? && s.jobs[j].loc == loc && s.jobs[j].content == content;
    assert j in s'.jobs && s'.jobs[j].Push?;
  }

  /** Only files with a temporary name change their bytes, and only a rename gives a file the name
      of an entry. */
  ghost predicate FilesEffect(s: State, s': State) {
    && s'.root == s.root && s'.configs == s.configs
    && JobsGrow(s, s')
    && (forall ino | Frozen(s, ino) :: Frozen(s', ino) && s'.data[ino] == s.data[ino])
    && (forall n | n in s.names && n.EntryName? :: n in s'.names)
  }

  lemma StartFiles(s: State, s': State, j: JobId)
    requires StartStep(s, s', j)
    ensures FilesEffect(s, s')
  {}

  lemma StartOthers(s: State, s': State, j: JobId, k: JobId)
    requires StartStep(s, s', j) && FilesEffect(s, s') && k in s.jobs && JobInv(s, k)
    ensures k in s'.jobs && JobInv(s', k)
  {
    KeepJob(s, s', k);
  }

  lemma StartEntry(s: State, s': State, j: JobId, loc: Location)
    requires StartStep(s, s', j) && FilesEffect(s, s') && EntryInv(s, loc)
    ensures EntryInv(s', loc)
  {
    if EntryName(loc) in s.names && s.names[EntryName(loc)] in s.data {
      PushedToGrows(s, s', loc, s.data[s.names[EntryName(loc)]]);
    }
  }

  lemma StartEffect(s: State, s': State, j: JobId)
    requires Inv(s) && StartStep(s, s', j)
    ensures FilesEffect(s, s') && Inv(s')
  {
    StartFiles(s, s', j);
    forall loc ensures EntryInv(s', loc) { StartEntry(s, s', j, loc); }
    forall k | k in s'.jobs ensures JobInv(s', k) {
      if k != j { StartOthers(s, s', j, k); }
    }
  }

  /** A retrieval changes nothing but its own progress. */
  lemma RetrieveShape(s: State, s': State, j: JobId)
    requires RetrieveStep(s, s', j)
    ensures s'.names == s.names && s'.data == s.data && s'.root == s.root && s'.configs == s.configs
    ensures j in s'.jobs && s'.jobs == s.jobs[j := s'.jobs[j]] && JobsGrow(s, s')
    ensures s'.jobs[j].Retrieve? && s'.jobs[j].execute == s.jobs[j].execute
  {
    RetrieveOnlyJob(s, s', j);
  }

  lemma RetrieveOnlyJob(s: State, s': State, j: JobId)
    requires RetrieveStep(s, s', j)
    ensures j in s.jobs && s.jobs[j].Retrieve? && j in s'.jobs && s'.jobs[j].Retrieve?
    ensures s' == WithJob(s, j, s'.jobs[j]) && s'.jobs[j] == s.jobs[j].(retrieve := s'.jobs[j].retrieve)
  {}

  lemma RetrieveEffect(s: State, s': State, j: JobId)
    requires Inv(s) && RetrieveStep(s, s', j)
    ensures FilesEffect(s, s') && Inv(s')
  {
    RetrieveShape(s, s', j);
    RetrieveOwn(s, s', j);
    RetrieveOthers(s, s', j);
  }

  lemma RetrieveOthers(s: State, s': State, j: JobId)
    requires Inv(s) && j in s.jobs && s.jobs[j].Retrieve? && j in s'.jobs && JobInv(s', j) && JobsGrow(s, s')
    requires s'.names == s.names && s'.data == s.data && s'.root == s.root && s'.configs == s.configs
    requires s'.jobs == s.jobs[j := s'.jobs[j]] && s'.jobs[j].Retrieve?
    ensures FilesEffect(s, s') && Inv(s')
  {
    forall loc ensures EntryInv(s', loc) {
      if EntryName(loc) in s'.names {
        assert EntryInv(s, loc);
        PushedToGrows(s, s', loc, s.data[s.names[EntryName(loc)]]);
      }
    }
    forall k | k in s'.jobs ensures JobInv(s', k) {
      if k != j { assert JobInv(s, k); KeepJob(s, s', k); }
    }
  }

  lemma RetrieveOwn(s: State, s': State, j: JobId)
    requires Inv(s) && RetrieveStep(s, s', j)
    ensures j in s'.jobs && JobInv(s', j)
  {
    RetrieveShape(s, s', j);
    assert JobInv(s, j);
    var pc, pc' := s.jobs[j].retrieve, s'.jobs[j].retrieve;
    if pc'.RCopy? {
      if pc.ROpen? { OpenedOwn(s, s', j); } else { ReadOwn(s, s', j); }
    } else if pc'.RDone? {
      PushedToGrows(s, s', s.jobs[j].loc, s.data[pc.ino]);
    }
  }

  lemma OpenedOwn(s: State, s': State, j: JobId)
    requires NamesInv(s) && (forall loc :: EntryInv(s, loc))
    requires j in s.jobs && s.jobs[j].Retrieve? && s.jobs[j].retrieve.ROpen? && JobInv(s, j)
    requires s' == WithJob(s, j, s.jobs[j].(retrieve := RCopy(s.names[EntryName(s.jobs[j].loc)], "")))
    ensures JobInv(s', j)
  {
    var loc := s.jobs[j].loc;
    EntryFrozen(s, loc);
    assert EntryInv(s, loc);
    PushedToGrows(s, s', loc, s.data[s.names[EntryName(loc)]]);
  }

  lemma ReadOwn(s: State, s': State, j: JobId)
    requires j in s.jobs && s.jobs[j].Retrieve? && s.jobs[j].retrieve.RCopy? && JobInv(s, j)
    requires var RCopy(ino, got) := s.jobs[j].retrieve; ReadSome(s, s', j, s.jobs[j], ino, got)
    ensures JobInv(s', j)
  {
    var RCopy(ino, got) := s.jobs[j].retrieve;
    assert Frozen(s', ino);
    PushedToGrows(s, s', s.jobs[j].loc, s.data[ino]);
  }

  lemma EntryFrozen(s: State, loc: Location)
    requires NamesInv(s) && EntryName(loc) in s.names
    ensures Frozen(s, s.names[EntryName(loc)])
  {}

  /** What `k` relies on survives any step that leaves `k` itself alone, keeps frozen files, and
      does not touch the temporary file `k` is writing. */
  lemma KeepJob(s: State, s': State, k: JobId)
    requires k in s.jobs && JobInv(s, k) && k in s'.jobs && s'.jobs[k] == s.jobs[k]
    requires FilesEffect(s, s')
    requires s.jobs[k].Push? && (s.jobs[k].push.PCopy? || s.jobs[k].push.PRename?) ==>
               var temp := TempName(s.jobs[k].loc, s.jobs[k].uuid);
               temp in s.names && temp in s'.names && s'.names[temp] == s.names[temp] &&
               s.names[temp] in s.data && s.names[temp] in s'.data && s'.data[s.names[temp]] == s.data[s.names[temp]]
    ensures JobInv(s', k)
  {
    var job := s.jobs[k];
    if job.Retrieve? && job.retrieve.RCopy? {
      PushedToGrows(s, s', job.loc, s.data[job.retrieve.ino]);
    } else if job.Retrieve? && job.retrieve.RDone? {
      PushedToGrows(s, s', job.loc, job.retrieve.got);
    }
  }

  /** The temporary file another push is writing is not the one job `j` may touch. */
  lemma OtherTemp(s: State, j: JobId, k: JobId)
    requires Inv(s) && j in s.jobs && k in s.jobs && j != k && s.jobs[j].Push? && s.jobs[k].Push?
    requires Live(s.jobs[j].push) && (s.jobs[k].push.PCopy? || s.jobs[k].push.PRename?)
    ensures var t, u := TempName(s.jobs[j].loc, s.jobs[j].uuid), TempName(s.jobs[k].loc, s.jobs[k].uuid);
            t != u && u in s.names && s.names[u] in s.data && (t in s.names ==> s.names[t] != s.names[u])
  {
    assert JobInv(s, k);
    var t, u := TempName(s.jobs[j].loc, s.jobs[j].uuid), TempName(s.jobs[k].loc, s.jobs[k].uuid);
    if t == u {
      assert SameTemp(s.jobs[k], s.jobs[j].uuid, s.jobs[j].loc);
    }
  }

  lemma PushEffect(s: State, s': State, j: JobId)
    requires Inv(s) && PushStep(s, s', j)
    ensures FilesEffect(s, s') && Inv(s')
  {
    PushHasShape(s, s', j);
    PushFiles(s, s', j);
    PushNames(s, s', j);
    forall loc ensures EntryInv(s', loc) { PushEntry(s, s', j, loc); }
    forall k | k in s'.jobs ensures JobInv(s', k) {
      assert JobInv(s, k);
      if k == j { PushOwn(s, s', j); } else { PushOther(s, s', j, k); }
    }
    forall i, k | i in s'.jobs && k in s'.jobs && s'.jobs[i].Push? && Live(s'.jobs[i].push) &&
                  SameTemp(s'.jobs[k], s'.jobs[i].uuid, s'.jobs[i].loc)
      ensures i == k
    {
      assert SameTemp(s.jobs[k], s.jobs[i].uuid, s.jobs[i].loc);
    }
  }

  /** The only ways a push changes the file system. */
  ghost predicate PushShape(s: State, s': State, j: JobId) {
    && j in s.jobs && s.jobs[j].Push?
    && s'.root == s.root && s'.configs == s.configs
    && s'.jobs.Keys == s.jobs.Keys && (forall k | k in s.jobs && k != j :: s'.jobs[k] == s.jobs[k])
    && s'.jobs[j] == s.jobs[j].(push := if s'.jobs[j].Push? then s'.jobs[j].push else PTest)
    && (Live(s'.jobs[j].push) ==> Live(s.jobs[j].push))
    && var temp, entry := TempName(s.jobs[j].loc, s.jobs[j].uuid), EntryName(s.jobs[j].loc);
       || (s'.names == s.names && s'.data == s.data)
       || (Live(s.jobs[j].push) && temp in s.names && s'.names == s.names && s.names[temp] in s'.data &&
           s'.data == s.data[s.names[temp] := s'.data[s.names[temp]]])
       || (Live(s.jobs[j].push) && temp !in s.names && temp in s'.names && s'.names[temp] !in s.data &&
           s'.names == s.names[temp := s'.names[temp]] && s'.data == s.data[s'.names[temp] := ""])
       || (Live(s.jobs[j].push) && temp in s.names && s'.data == s.data &&
           s'.names == (s.names - {temp})[entry := s.names[temp]] &&
           s.names[temp] in s.data && s.data[s.names[temp]] == s.jobs[j].content)
  }

  lemma PushHasShape(s: State, s': State, j: JobId)
    requires Inv(s) && PushStep(s, s', j)
    ensures PushShape(s, s', j)
  {
    assert JobInv(s, j);
    if s.jobs[j].push.POpen? && OpenForCopy(s, s', j, s.jobs[j], TempName(s.jobs[j].loc, s.jobs[j].uuid)) {
      OpenHasShape(s, s', j);
    } else if s.jobs[j].push.PCopy? && CopySome(s, s', s.jobs[j], s.jobs[j].push.ino) {
      CopyHasShape(s, s', j);
    } else if s.jobs[j].push.PRename? && j in s'.jobs && s'.jobs[j] == s.jobs[j].(push := PPublished) {
      RenameHasShape(s, s', j);
    } else {
      MoveHasShape(s, s', j);
    }
  }

  lemma RenameHasShape(s: State, s': State, j: JobId)
    requires j in s.jobs && s.jobs[j].Push? && s.jobs[j].push.PRename? && JobInv(s, j) && PushStep(s, s', j)
    requires j in s'.jobs && s'.jobs[j] == s.jobs[j].(push := PPublished)
    ensures PushShape(s, s', j)
  {}

  /** A step that only moves the job along. */
  lemma MoveHasShape(s: State, s': State, j: JobId)
    requires j in s.jobs && s.jobs[j].Push? && j in s'.jobs && s' == WithJob(s, j, s'.jobs[j]) && s'.jobs[j].Push?
    requires s'.jobs[j] == s.jobs[j].(push := s'.jobs[j].push)
    requires Live(s'.jobs[j].push) ==> Live(s.jobs[j].push)
    ensures PushShape(s, s', j)
  {}

  lemma OpenHasShape(s: State, s': State, j: JobId)
    requires j in s.jobs && s.jobs[j].Push? && s.jobs[j].push.POpen? && NamesInv(s)
    requires OpenForCopy(s, s', j, s.jobs[j], TempName(s.jobs[j].loc, s.jobs[j].uuid))
    ensures PushShape(s, s', j)
  {}

  lemma CopyHasShape(s: State, s': State, j: JobId)
    requires j in s.jobs && s.jobs[j].Push? && s.jobs[j].push.PCopy? && JobInv(s, j)
    requires CopySome(s, s', s.jobs[j], s.jobs[j].push.ino)
    ensures PushShape(s, s', j)
  {}

  lemma PushFiles(s: State, s': State, j: JobId)
    requires Inv(s) && PushShape(s, s', j)
    ensures FilesEffect(s, s')
  {
    forall ino | Frozen(s, ino) ensures Frozen(s', ino) && s'.data[ino] == s.data[ino] {
      PushKeepsFrozen(s, s', j, ino);
    }
  }

  lemma PushKeepsFrozen(s: State, s': State, j: JobId, ino: Ino)
    requires PushShape(s, s', j) && Frozen(s, ino)
    ensures Frozen(s', ino) && s'.data[ino] == s.data[ino]
  {}

  lemma PushNames(s: State, s': State, j: JobId)
    requires Inv(s) && PushShape(s, s', j)
    ensures NamesInv(s')
  {}

  lemma PushEntry(s: State, s': State, j: JobId, loc: Location)
    requires Inv(s) && PushShape(s, s', j) && FilesEffect(s, s')
    ensures EntryInv(s', loc)
  {
    var e := EntryName(loc);
    if e in s'.names {
      if e in s.names && s'.names[e] == s.names[e] {
        EntryFrozen(s, loc);
        assert EntryInv(s, loc);
        PushedToGrows(s, s', loc, s.data[s.names[e]]);
      } else {
        assert s.jobs[j].loc == loc;
        assert s'.jobs[j].content == s'.data[s'.names[e]];
      }
    }
  }

  lemma PushOwn(s: State, s': State, j: JobId)
    requires Inv(s) && PushStep(s, s', j) && FilesEffect(s, s')
    ensures j in s'.jobs && JobInv(s', j)
  {
    assert JobInv(s, j);
  }

  lemma PushOther(s: State, s': State, j: JobId, k: JobId)
    requires Inv(s) && PushShape(s, s', j) && FilesEffect(s, s')
    requires k in s.jobs && k != j && k in s'.jobs && s'.jobs[k] == s.jobs[k]
    ensures JobInv(s', k)
  {
    assert JobInv(s, k);
    if s.jobs[k].Push? && (s.jobs[k].push.PCopy? || s.jobs[k].push.PRename?) && Live(s.jobs[j].push) {
      OtherTemp(s, j, k);
    }
    KeepJob(s, s', k);
  }

  lemma NextInv(s: State, s': State)
    requires Inv(s) && Next(s, s')
    ensures Inv(s') && FilesEffect(s, s')
  {
    var j :| StartStep(s, s', j) || PushStep(s, s', j) || RetrieveStep(s, s', j);
    if StartStep(s, s', j) {
      StartEffect(s, s', j);
    } else if PushStep(s, s', j) {
      PushEffect(s, s', j);
    } else {
      RetrieveEffect(s, s', j);
    }
  }

  lemma {:induction false} RunInv(b: seq<State>, i: nat)
    requires Run(b) && i < |b|
    ensures Inv(b[i])
  {
    if i > 0 {
      RunInv(b, i - 1);
      RunStep(b, i - 1);
    }
  }

  lemma RunStep(b: seq<State>, i: nat)
    requires Run(b) && i + 1 < |b| && Inv(b[i])
    ensures Inv(b[i + 1]) && FilesEffect(b[i], b[i + 1])
  {
    assert StepAt(b, i);
    NextInv(b[i], b[i + 1]);
  }
}
