/** What every interleaving of pushes and retrievals guarantees, and how it rests on the agreement
    reached when the cache was opened. */
module CacheRetrieval {
  import opened Std
  import opened CachePaths
  import opened CachePublish
  import CacheConfig
  import CacheAgreement

  /** A published cache entry never disappears. */
  lemma {:induction false} EntriesNeverDisappear(b: seq<State>, i: nat, j: nat, loc: Location)
    requires Run(b) && i <= j < |b| && EntryName(loc) in b[i].names
    ensures EntryName(loc) in b[j].names
    decreases j - i
  {
    if i < j {
      EntriesNeverDisappear(b, i, j - 1, loc);
      RunInv(b, j - 1);
      RunStep(b, j - 1);
    }
  }

  lemma {:induction false} ConfigsFixed(b: seq<State>, i: nat)
    requires Run(b) && i < |b|
    ensures b[i].configs == b[0].configs && b[i].root == b[0].root
  {
    if i > 0 {
      ConfigsFixed(b, i - 1);
      RunInv(b, i - 1);
      RunStep(b, i - 1);
    }
  }

  predicate HexSigs(s: State) {
    s.root != "" && forall j | j in s.jobs :: Hex(s.jobs[j].sig)
  }

  /** Bytes pushed to the location of a signature were pushed under that signature. */
  lemma PushedToIsPushed(s: State, j: JobId, content: Bytes)
    requires Inv(s) && HexSigs(s) && j in s.jobs && PushedTo(s, s.jobs[j].loc, content)
    ensures Pushed(s, s.jobs[j].sig, content)
  {
    var k :| k in s.jobs && s.jobs[k].Push? && s.jobs[k].loc == s.jobs[j].loc && s.jobs[k].content == content;
    assert JobInv(s, j) && JobInv(s, k);
    CachePathInjective(s.root, s.configs[s.jobs[k].uuid], s.configs[s.jobs[j].uuid], s.jobs[k].sig, s.jobs[j].sig);
  }

  /** Whatever can be seen in the cache, at any moment of any run, is a complete copy of something
      that was pushed there: nobody sees a partial file under a cache entry's name. */
  lemma VisibleEntriesAreComplete(b: seq<State>, i: nat, loc: Location)
    requires Run(b) && i < |b| && EntryName(loc) in b[i].names
    ensures b[i].names[EntryName(loc)] in b[i].data
    ensures PushedTo(b[i], loc, b[i].data[b[i].names[EntryName(loc)]])
  {
    RunInv(b, i);
    assert EntryInv(b[i], loc);
  }

  /** A retrieval that reports success has delivered, byte for byte, something pushed under its own
      signature, whatever other pushes replaced the entry while it was being copied out. */
  lemma DeliveredWasPushed(b: seq<State>, i: nat, j: JobId)
    requires Run(b) && i < |b| && HexSigs(b[i])
    requires j in b[i].jobs && b[i].jobs[j].Retrieve? && b[i].jobs[j].retrieve.RDone?
    ensures Pushed(b[i], b[i].jobs[j].sig, b[i].jobs[j].retrieve.got)
  {
    RunInv(b, i);
    assert JobInv(b[i], j);
    PushedToIsPushed(b[i], j, b[i].jobs[j].retrieve.got);
  }

  // ---- Composition with the directory protocol ----

  ghost predicate OpenedBy(cb: seq<CacheConfig.State>, c: CacheConfig.Config) {
    exists i: nat, p: CacheConfig.Pid ::
      i < |cb| && p in cb[i].procs && cb[i].procs[p].pc == CacheConfig.Done(c)
  }

  /** Every process of the publication protocol opened the cache in one run of the directory
      protocol, each with its own proposed configuration. */
  ghost predicate OpenedTogether(cb: seq<CacheConfig.State>, s: State) {
    forall u | u in s.configs :: OpenedBy(cb, s.configs[u])
  }

  lemma SameConfig(cb: seq<CacheConfig.State>, s: State, u: Uuid, v: Uuid)
    requires CacheConfig.Run(cb) && OpenedTogether(cb, s) && u in s.configs && v in s.configs
    ensures s.configs[u] == s.configs[v]
  {
    assert OpenedBy(cb, s.configs[u]) && OpenedBy(cb, s.configs[v]);
    var i: nat, p: CacheConfig.Pid :|
      i < |cb| && p in cb[i].procs && cb[i].procs[p].pc == CacheConfig.Done(s.configs[u]);
    var j: nat, q: CacheConfig.Pid :|
      j < |cb| && q in cb[j].procs && cb[j].procs[q].pc == CacheConfig.Done(s.configs[v]);
    CacheAgreement.AllReadersAgree(cb, i, j, p, q);
  }

  /** Once some process has pushed a signature (or found it already there), every later retrieval of
      it by any process that opened the same cache is a hit: they all compute the same path. */
  lemma HitAfterPublish(cb: seq<CacheConfig.State>, b: seq<State>, i: nat, j: nat, k: JobId, r: JobId, s': State)
    requires CacheConfig.Run(cb) && Run(b) && OpenedTogether(cb, b[0]) && i <= j < |b|
    requires k in b[i].jobs && b[i].jobs[k].Push? && (b[i].jobs[k].push.PPublished? || b[i].jobs[k].push.PSkipped?)
    requires r in b[j].jobs && b[j].jobs[r].Retrieve? && b[j].jobs[r].retrieve.RTest?
    requires b[i].jobs[k].sig == b[j].jobs[r].sig
    requires RetrieveStep(b[j], s', r)
    ensures r in s'.jobs && s'.jobs[r].Retrieve? && !s'.jobs[r].retrieve.RMiss?
  {
    RunInv(b, i);
    RunInv(b, j);
    ConfigsFixed(b, i);
    ConfigsFixed(b, j);
    assert JobInv(b[i], k) && JobInv(b[j], r);
    SameConfig(cb, b[0], b[i].jobs[k].uuid, b[j].jobs[r].uuid);
    EntriesNeverDisappear(b, i, j, b[i].jobs[k].loc);
  }
}
