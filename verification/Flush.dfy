/** Flushing one batch: everything the writer goroutine does between taking a batch from the
    queue and answering it. */
module Flush {
  import opened Common
  import opened CacheModel
  import opened ExpirationHeap
  import opened Index
  import opened Batch
  import opened Committing
  import opened Admission
  import opened Install
  import opened Writes
  import opened Deletions

  /** The batch was processed write by write, each step from the stage before it. */
  ghost predicate Processed(trace: seq<Stage>, evictions: seq<seq<Key>>, batch: seq<PendingWrite>,
                            results: seq<WriteResult>, lru: seq<Key>, stale: nat, pathLength: nat, budget: Budget)
  {
    && |trace| == |results| + 1 && |evictions| == |results| <= |batch|
    && forall i :: 0 <= i < |results| ==> StepOf(trace, evictions, batch, results, i, lru, stale, pathLength, budget)
  }

  ghost predicate StepOf(trace: seq<Stage>, evictions: seq<seq<Key>>, batch: seq<PendingWrite>,
                         results: seq<WriteResult>, i: nat, lru: seq<Key>, stale: nat, pathLength: nat, budget: Budget)
    requires i < |results| <= |batch| && |trace| == |results| + 1 && |evictions| == |results|
  {
    Admits(trace[i], trace[i + 1], batch[i], results[i], evictions[i], lru, stale, pathLength, budget)
  }

  lemma ProcessedStep(trace: seq<Stage>, evictions: seq<seq<Key>>, batch: seq<PendingWrite>, results: seq<WriteResult>,
                      lru: seq<Key>, stale: nat, pathLength: nat, budget: Budget, b: Stage, r: WriteResult,
                      evicted: seq<Key>)
    requires Processed(trace, evictions, batch, results, lru, stale, pathLength, budget) && |results| < |batch|
    requires Admits(trace[|trace| - 1], b, batch[|results|], r, evicted, lru, stale, pathLength, budget)
    ensures Processed(trace + [b], evictions + [evicted], batch, results + [r], lru, stale, pathLength, budget)
  {
    hide Admits;
    forall i | 0 <= i < |results| + 1
      ensures StepOf(trace + [b], evictions + [evicted], batch, results + [r], i, lru, stale, pathLength, budget)
    {
      if i < |results| {
        assert StepOf(trace, evictions, batch, results, i, lru, stale, pathLength, budget);
      }
    }
  }

  /** The writes of a batch with the result `Stored`. */
  function AcceptedOf(batch: seq<PendingWrite>, results: seq<WriteResult>): (accepted: seq<PendingWrite>)
    requires |results| <= |batch|
    ensures |accepted| <= |results|
  {
    if results == [] then []
    else
      var n := |results| - 1;
      AcceptedOf(batch, results[..n]) + (if results[n] == Stored then [batch[n]] else [])
  }

  lemma AcceptedPush(batch: seq<PendingWrite>, results: seq<WriteResult>, r: WriteResult)
    requires |results| < |batch|
    ensures AcceptedOf(batch, results + [r]) ==
              AcceptedOf(batch, results) + (if r == Stored then [batch[|results|]] else [])
  {
    assert (results + [r])[..|results|] == results;
  }

  ghost function VariedKeys(writes: seq<PendingWrite>): set<Key> { set w | w in writes :: w.variedKey }

  /** Processes the writes of a batch in order. */
  method StageBatch(s: BatchState, batch: seq<PendingWrite>, budget: Budget)
    returns (results: seq<WriteResult>, accepted: seq<PendingWrite>, ghost trace: seq<Stage>,
             ghost evictions: seq<seq<Key>>)
    requires s.Linked() && s.Balanced() && RecencyList(s.p.items, s.p.lru) && AllWellFormed(batch)
    requires Planned(s.p.Cached(), s.Staged(), s.obsoleteFiles, s.items.Keys, {}) && s.NewBodies() == {}
    modifies s`items, s`groups, s`itemGroups, s`variantMappings, s`used, s`physical, s`evicted
    modifies s`obsoleteFiles, s`lost, s.p`nextVersion
    ensures s.Linked() && s.Balanced() && s.items.Keys >= old(s.items.Keys)
    ensures Processed(trace, evictions, batch, results, s.p.lru, s.p.stale, s.p.bodyPathLength, budget)
    ensures |results| == |batch| == |trace| - 1
    ensures trace[0] == old(StageOf(s, {})) && trace[|batch|] == StageOf(s, VariedKeys(accepted))
    ensures accepted != [] ==> s.physical <= budget.physicalAvailable
    ensures s.Shortage() <= old(s.Shortage()) && s.NewBodies() == VariedKeys(accepted)
    ensures accepted != [] ==> AccountedTotal(s.Staged()) <= budget.accountedAvailable + old(s.Shortage())
    ensures Planned(s.p.Cached(), s.Staged(), s.obsoleteFiles, s.items.Keys, PathSet(accepted))
    ensures AllWellFormed(accepted) && |accepted| <= |batch| && (accepted == [] <==> !SomeStored(results))
    ensures accepted == AcceptedOf(batch, results)
  {
    hide BatchState.Linked, BatchState.Staged, BatchState.Balanced, Provider.Cached, RecencyList, Planned;
    hide Admits, Processed;
    hide Total, BatchState.NewBodies;
    hide VariedKeys, PathSet;
    results, accepted, evictions := [], [], [];
    trace := [StageOf(s, {})];
    var protected: set<Key> := {};
    NothingAccepted(trace, batch, s.p.lru, s.p.stale, s.p.bodyPathLength, budget);
    for i := 0 to |batch|
      invariant s.Linked() && s.Balanced() && s.items.Keys >= old(s.items.Keys) && |results| == i
      invariant |trace| == i + 1 && |evictions| == i
      invariant Processed(trace, evictions, batch, results, s.p.lru, s.p.stale, s.p.bodyPathLength, budget)
      invariant trace[0] == old(StageOf(s, {})) && trace[i] == StageOf(s, protected)
      invariant protected == VariedKeys(accepted)
      invariant accepted != [] ==> s.physical <= budget.physicalAvailable
      invariant s.Shortage() <= old(s.Shortage()) && s.NewBodies() == protected
      invariant accepted != [] ==> AccountedTotal(s.Staged()) <= budget.accountedAvailable + old(s.Shortage())
      invariant Planned(s.p.Cached(), s.Staged(), s.obsoleteFiles, s.items.Keys, PathSet(accepted))
      invariant AllWellFormed(accepted) && |accepted| <= i && (accepted == [] <==> !SomeStored(results))
      invariant accepted == AcceptedOf(batch, results)
    {
      var w := batch[i];
      assert w in batch;
      AcceptedStep(accepted, w);
      ghost var before := StageOf(s, protected);
      var r, evicted := StageWrite(s, w, budget, protected, PathSet(accepted));
      ProcessedStep(trace, evictions, batch, results, s.p.lru, s.p.stale, s.p.bodyPathLength, budget,
                    StageOf(s, if r.Stored? then protected + {w.variedKey} else protected), r, evicted);
      SameStage(before, s, w, r, evicted, protected, budget);
      AcceptedPush(batch, results, r);
      results, evictions := results + [r], evictions + [evicted];
      if r == Stored {
        accepted, protected := accepted + [w], protected + {w.variedKey};
      }
      trace := trace + [StageOf(s, protected)];
    }
  }

  lemma NothingAccepted(trace: seq<Stage>, batch: seq<PendingWrite>, lru: seq<Key>, stale: nat, pathLength: nat,
                        budget: Budget)
    requires |trace| == 1
    ensures Processed(trace, [], batch, [], lru, stale, pathLength, budget) && VariedKeys([]) == {} && PathSet([]) == {}
  {
  }

  lemma AcceptedStep(accepted: seq<PendingWrite>, w: PendingWrite)
    ensures VariedKeys(accepted + [w]) == VariedKeys(accepted) + {w.variedKey}
    ensures PathSet(accepted + [w]) == PathSet(accepted) + {FinalPath(w)}
  {
  }

  /** A rejected write leaves the counters alone. */
  lemma SameStage(before: Stage, s: BatchState, w: PendingWrite, r: WriteResult, evicted: seq<Key>, accepted: set<Key>,
                  budget: Budget)
    requires Admits(before, StageOf(s, if r.Stored? then accepted + {w.variedKey} else accepted),
                    w, r, evicted, s.p.lru, s.p.stale, s.p.bodyPathLength, budget)
    ensures !r.Stored? ==> s.used == before.used && s.physical == before.physical && s.Staged() == before.cache
  {
  }

  /** The obsolete files that no staged body uses. */
  method Unused(s: BatchState) returns (removed: set<Path>)
    requires s.Linked()
    ensures forall f :: f in removed <==> f in s.obsoleteFiles && !(f.key in s.items && Names(s.Staged(), f))
  {
    hide View;
    var live := set k | k in s.items && s.items[k].Some? && s.items[k].value.record.value.Body? ::
                        s.items[k].value.record.value.path;
    removed := s.obsoleteFiles - live;
    LivePaths(s, live);
  }

  lemma LivePaths(s: BatchState, live: set<Path>)
    requires live == set k | k in s.items && s.items[k].Some? && s.items[k].value.record.value.Body? ::
                             s.items[k].value.record.value.path
    requires s.Linked()
    ensures forall f: Path :: f in live <==> f.key in s.items && Names(s.Staged(), f)
  {
    forall f: Path ensures f in live <==> f.key in s.items && Names(s.Staged(), f) {
      if f in live {
        var k :| k in s.items && s.items[k].Some? && s.items[k].value.record.value == Body(f);
        assert k in s.Staged() && WellFormedRecord(k, s.Staged()[k].record);
      }
    }
  }

  /** An image without the directory: everything a failed batch must leave alone. */
  ghost function Indexes(i: Snapshot): Snapshot { i.(files := map[], orphans := {}) }

  /** Commits the index over the installed files and removes what has become obsolete. */
  method CommitInstalled(s: BatchState, ghost files: map<Path, Blob>, ghost written: set<Path>, persistFails: bool)
      returns (ok: bool, ghost moved: seq<Key>)
    requires s.Linked() && s.Balanced() && s.p.Indexed() && s.QueueSplit() && KeysOf(s.poppedExpiry) <= s.items.Keys
    requires FilesMatch(s.p.Cached(), files, s.p.orphans) && Intact(s.p.files) && s.p.files.Keys == files.Keys + written
    requires Planned(s.p.Cached(), s.Staged(), s.obsoleteFiles, s.items.Keys, written)
    modifies s.p, s.p.expirations, s.p.expirations.Elements()
    ensures fresh(s.p.expirations.Elements() - old(s.p.expirations.Elements()))
    ensures ok <==> !persistFails
    ensures ok ==>
              && s.p.Valid() && s.p.Cached() == old(s.Staged()) && s.p.orphans <= old(s.p.orphans)
              && s.p.cacheUsed == s.used && s.p.physicalUsed == s.physical && s.p.dirtyItems == {}
              && s.p.dirtyGroups == {} && Moves(old(s.p.lru), s.p.lru, s.p.Cached(), moved, old(s.NewBodies()))
    ensures !ok ==>
              && s.p.Indexed() && s.QueueSplit() && s.p.Image() == old(s.p.Image())
              && s.p.expirations.Elements() == old(s.p.expirations.Elements())
  {
    hide BatchState.Linked, BatchState.Balanced, Provider.InMemory, DiskAgrees, HeapOrdered, Planned, WellFormed;
    hide BatchState.Staged, Provider.Cached, FilesMatch, Names, StagedBodies, Recent, BatchState.NewBodies, Bodies;
    hide Provider.Queue, Provider.Valid, BatchState.QueueSplit, Tracks, Provider.Indexed;
    var removed := Unused(s);
    FilesAfterCommit(s.p.Cached(), s.Staged(), s.obsoleteFiles, s.items.Keys, written, files, s.p.files, s.p.orphans,
                     removed);
    ghost var bodies := s.NewBodies();
    NewBodiesStaged(s);
    ok, moved := Commit(s, persistFails);
    if ok {
      MovedBodies(s.items, bodies, moved);
      s.p.files := s.p.files - removed;
      s.p.orphans := s.p.orphans - removed;
      QueueDone(s.p);
    }
  }

  /** The recency list after a committed batch: the bodies it stored are behind all others. */
  ghost predicate Moves(lru: seq<Key>, lru': seq<Key>, c: Cache, moved: seq<Key>, stored: set<Key>)
  {
    lru' == Recent(lru, Bodies(c), moved) && KeySet(moved) == stored
  }

  lemma NewBodiesStaged(s: BatchState)
    ensures forall k :: k in s.NewBodies() <==> k in s.items && s.items[k].Some? && s.items[k].value.record.value.Body?
  {
    s.StagedSome();
  }

  lemma MovedBodies(staged: map<Key, Option<Item>>, bodies: set<Key>, moved: seq<Key>)
    requires StagedBodies(staged, staged.Keys, moved)
    requires forall k :: k in bodies <==> k in staged && staged[k].Some? && staged[k].value.record.value.Body?
    ensures KeySet(moved) == bodies
  {
  }

  /** Installs the files and commits, or rolls back. */
  method InstallAndCommit(s: BatchState, accepted: seq<PendingWrite>, faults: seq<Fault>, syncFails: bool,
                          persistFails: bool)
    returns (ok: bool, ghost moved: seq<Key>)
    requires s.Linked() && s.Balanced() && s.p.Indexed() && s.QueueSplit() && KeysOf(s.poppedExpiry) <= s.items.Keys
    requires FilesMatch(s.p.Cached(), s.p.files, s.p.orphans) && AllWellFormed(accepted) && |accepted| <= |faults|
    requires Planned(s.p.Cached(), s.Staged(), s.obsoleteFiles, s.items.Keys, PathSet(accepted))
    modifies s.p, s.p.expirations, s.p.expirations.Elements()
    ensures fresh(s.p.expirations.Elements() - old(s.p.expirations.Elements()))
    ensures ok <==> Installs(old(s.p.files), accepted, faults, syncFails) && !persistFails
    ensures ok ==>
              && s.p.Valid() && s.p.Cached() == old(s.Staged()) && s.p.orphans <= old(s.p.orphans)
              && s.p.cacheUsed == s.used && s.p.physicalUsed == s.physical && s.p.dirtyItems == {}
              && s.p.dirtyGroups == {} && Moves(old(s.p.lru), s.p.lru, s.p.Cached(), moved, old(s.NewBodies()))
    ensures !ok ==>
              && s.p.Indexed() && s.QueueSplit() && FilesMatch(s.p.Cached(), s.p.files, s.p.orphans)
              && Indexes(s.p.Image()) == Indexes(old(s.p.Image()))
              && s.p.expirations.Elements() == old(s.p.expirations.Elements())
              && (s.p.Image() == old(s.p.Image()) <==> !StatFailed(old(s.p.files), accepted, faults))
  {
    hide BatchState.Linked, BatchState.Balanced, Provider.InMemory, DiskAgrees, HeapOrdered, PathSet, Planned;
    hide WellFormed, StatFailed, Moves, BatchState.NewBodies;
    hide BatchState.Staged, Provider.Cached, FilesMatch, Names, InstallAll, Intact;
    hide Provider.Queue, Provider.Valid, BatchState.QueueSplit, Tracks, Provider.Indexed;
    var p := s.p;
    ghost var files := p.files;
    FilesIntact(p.Cached(), files, p.orphans);
    InstallFacts(files, accepted, faults);
    RollbackRestores(files, accepted, faults);
    var installed: set<Path>;
    installed, ok := InstallBatchFiles(p, accepted, faults, syncFails);
    moved := [];
    if ok {
      ok, moved := CommitInstalled(s, files, PathSet(accepted), persistFails);
    }
    if !ok {
      Rollback(p, installed, files);
    }
  }

  /** Deletes the installed files of a failed batch. */
  method Rollback(p: Provider, installed: set<Path>, ghost files: map<Path, Blob>)
    requires FilesMatch(p.Cached(), files, p.orphans) && Intact(p.files)
    requires files.Keys + installed <= p.files.Keys && installed !! files.Keys
    modifies p`files, p`orphans
    ensures p.files == old(p.files) - installed && FilesMatch(p.Cached(), p.files, p.orphans)
    ensures p.files == files ==> p.orphans == old(p.orphans)
  {
    p.files := p.files - installed;
    FilesAfterRollback(p.Cached(), files, p.files, p.orphans);
    p.orphans := p.orphans + (p.files.Keys - files.Keys);
  }

  lemma FilesIntact(c: Cache, files: map<Path, Blob>, orphans: set<Path>)
    requires FilesMatch(c, files, orphans)
    ensures Intact(files)
  {
  }

  lemma FilesAfterRollback(c: Cache, files: map<Path, Blob>, left: map<Path, Blob>, orphans: set<Path>)
    requires FilesMatch(c, files, orphans) && files.Keys <= left.Keys && Intact(left)
    ensures FilesMatch(c, left, orphans + (left.Keys - files.Keys))
  {
  }

  /** After a sweep, the plan for the directory is to remove the files of the expired bodies. */
  lemma SweepPlanned(s: BatchState, d: set<Key>)
    requires s.HasPurged(d)
    ensures Planned(s.p.Cached(), s.Staged(), s.obsoleteFiles, s.items.Keys, {})
  {
    var c := s.p.Cached();
    PurgedNothing(c);
    assert Planned(c, c, {}, {}, {});
    assert {} + PathsOf(c, d) == PathsOf(c, d);
    PlannedPurge(c, c, {}, {}, {}, d, s.items.Keys);
  }

  function Transient(batch: seq<PendingWrite>): nat
  {
    if batch == [] then 0 else batch[0].physicalSize + Transient(batch[1..])
  }

  /** The new files of a batch hold the sum of the blocks of its writes. */
  lemma {:induction false} TransientSum(a: seq<PendingWrite>, b: seq<PendingWrite>, w: PendingWrite)
    ensures Transient([]) == 0 && Transient([w]) == w.physicalSize
    ensures Transient(a + b) == Transient(a) + Transient(b)
  {
    if a == [] {
      assert a + b == b;
    } else {
      TransientSum(a[1..], b, w);
      assert (a + b)[1..] == a[1..] + b;
    }
  }

  ghost function BudgetFor(limits: Limits, batch: seq<PendingWrite>, usage: Option<DiskUsage>,
                           physicalUsed: nat): Budget
  {
    match usage
    case None => Budget(0, 0)
    case Some(u) => CapacityAvailable(limits, Transient(batch), u, physicalUsed)
  }

  predicate SomeStored(results: seq<WriteResult>)
  {
    Stored in results
  }

  /** Ends a batch: without an accepted write, or when the install or the commit fails, the
      popped entries go back into the queue. */
  method Conclude(s: BatchState, accepted: seq<PendingWrite>, faults: seq<Fault>, syncFails: bool, persistFails: bool)
    returns (ok: bool, ghost moved: seq<Key>)
    requires s.Linked() && s.Balanced() && s.p.Indexed() && s.QueueSplit() && KeysOf(s.poppedExpiry) <= s.items.Keys
    requires FilesMatch(s.p.Cached(), s.p.files, s.p.orphans) && AllWellFormed(accepted) && |accepted| <= |faults|
    requires Planned(s.p.Cached(), s.Staged(), s.obsoleteFiles, s.items.Keys, PathSet(accepted))
    modifies s.p, s.p.expirations, s.p.expirations.Elements(), s.poppedExpiry
    ensures s.p.Valid()
    ensures ok <==> accepted != [] && Installs(old(s.p.files), accepted, faults, syncFails) && !persistFails
    ensures fresh(s.p.expirations.Elements() - old(s.p.expirations.Elements()) - Members(s.poppedExpiry))
    ensures ok ==>
              && s.p.Cached() == old(s.Staged()) && s.p.orphans <= old(s.p.orphans)
              && s.p.cacheUsed == s.used && s.p.physicalUsed == s.physical && s.p.dirtyItems == {}
              && s.p.dirtyGroups == {} && Moves(old(s.p.lru), s.p.lru, s.p.Cached(), moved, old(s.NewBodies()))
    ensures !ok ==>
              && Indexes(s.p.Image()) == Indexes(old(s.p.Image()))
              && s.p.expirations.Elements() == old(s.p.expirations.Elements()) + Members(s.poppedExpiry)
              && (s.p.Image() == old(s.p.Image()) <==> !StatFailed(old(s.p.files), accepted, faults))
  {
    hide BatchState.Linked, BatchState.Balanced, Provider.InMemory, DiskAgrees, HeapOrdered, PathSet, Planned;
    hide WellFormed, Installs, Moves, BatchState.NewBodies;
    hide BatchState.Staged, Provider.Cached, FilesMatch, Names, Tracks, Members, KeysOf;
    if accepted == [] {
      ok, moved := false, [];
    } else {
      ok, moved := InstallAndCommit(s, accepted, faults, syncFails, persistFails);
    }
    if !ok {
      s.RestoreExpiry();
    }
  }

  /** Opens a batch and sweeps the expired items into it. */
  method OpenBatch(p: Provider, now: int) returns (s: BatchState)
    requires p.Valid()
    modifies p`nextVersion, p.expirations, p.expirations.Elements()
    ensures fresh(s) && s.p == p && p.Indexed() && FilesMatch(p.Cached(), p.files, p.orphans)
    ensures s.Linked() && s.Balanced() && s.Staged() == Purged(p.Cached(), Due(p.Cached(), now))
    ensures Planned(p.Cached(), s.Staged(), s.obsoleteFiles, s.items.Keys, {}) && RecencyList(p.items, p.lru)
    ensures s.QueueSplit() && KeysOf(s.poppedExpiry) <= s.items.Keys
    ensures p.expirations.Elements() + Members(s.poppedExpiry) == old(p.expirations.Elements())
    ensures SweepOrder(p.Cached(), now, PopOrder(s.poppedExpiry))
    ensures s.Shortage() <= p.Shortage() + Lost(p.Cached(), PopOrder(s.poppedExpiry)) && s.NewBodies() == {}
  {
    hide BatchState.Linked, BatchState.Balanced, Provider.InMemory, DiskAgrees, HeapOrdered, Planned;
    hide WellFormed, RecencyList, Lost, SweepOrder, PopOrder, Due, BatchState.Shortage, Provider.Shortage;
    hide BatchState.Staged, Provider.Cached, FilesMatch, Names, Tracks, BatchState.HasPurged, Total, Purged;
    hide BatchState.NewBodies;
    s := Begin(p);
    s.StageExpired(now);
    DueAreItems(p, now);
    Swept(s, Due(p.Cached(), now));
  }

  /** The processed batch is committed: some write was accepted, its files get into place and the
      transaction succeeds. */
  predicate Commits(files: map<Path, Blob>, batch: seq<PendingWrite>, staged: seq<WriteResult>, faults: seq<Fault>,
                    syncFails: bool, persistFails: bool)
    requires |staged| <= |batch| <= |faults|
  {
    SomeStored(staged) && Installs(files, AcceptedOf(batch, staged), faults, syncFails) && !persistFails
  }

  /** The provider after a committed batch: its cache and counters are those of the last stage. It is
      within the physical budget, and exceeds the accounted one by no more than the account was
      behind when the batch began. */
  ghost predicate Ends(after: Snapshot, last: Stage, budget: Budget, behind: int)
  {
    && Abstract(after.items, after.itemGroups) == last.cache
    && after.cacheUsed == last.used && after.physicalUsed == last.physical <= budget.physicalAvailable
    && ShortageOf(last) <= behind && AccountedTotal(last.cache) <= budget.accountedAvailable + behind
  }

  /** Runs an open batch to its end: the accepted writes are committed together, or nothing is. */
  method Attempt(s: BatchState, batch: seq<PendingWrite>, budget: Budget, faults: seq<Fault>, syncFails: bool,
                 persistFails: bool)
    returns (results: seq<WriteResult>, ghost staged: seq<WriteResult>, ghost trace: seq<Stage>,
             ghost evictions: seq<seq<Key>>, ghost moved: seq<Key>)
    requires s.p.Indexed() && FilesMatch(s.p.Cached(), s.p.files, s.p.orphans) && s.Linked() && s.Balanced()
    requires Planned(s.p.Cached(), s.Staged(), s.obsoleteFiles, s.items.Keys, {}) && RecencyList(s.p.items, s.p.lru)
    requires s.QueueSplit() && KeysOf(s.poppedExpiry) <= s.items.Keys && AllWellFormed(batch) && |batch| <= |faults|
    requires s.NewBodies() == {}
    modifies s, s.p, s.p.expirations, s.p.expirations.Elements(), s.poppedExpiry
    ensures s.p.Valid() && |results| == |batch|
    ensures fresh(s.p.expirations.Elements() - old(s.p.expirations.Elements()) - old(Members(s.poppedExpiry)))
    ensures Processed(trace, evictions, batch, staged, old(s.p.lru), s.p.stale, s.p.bodyPathLength, budget)
    ensures |staged| == |batch| == |trace| - 1 && trace[0] == old(StageOf(s, {})) && Opens(trace[0], old(s.Shortage()))
    ensures results == if Commits(old(s.p.files), batch, staged, faults, syncFails, persistFails) then staged
                       else Failed(staged)
    ensures SomeStored(results) ==>
              && Ends(s.p.Image(), trace[|batch|], budget, old(s.Shortage()))
              && Moves(old(s.p.lru), s.p.lru, s.p.Cached(), moved, trace[|batch|].accepted)
              && s.p.orphans <= old(s.p.orphans) && s.p.dirtyItems == {} && s.p.dirtyGroups == {}
    ensures !SomeStored(results) ==>
              && Indexes(s.p.Image()) == Indexes(old(s.p.Image()))
              && s.p.expirations.Elements() == old(s.p.expirations.Elements()) + old(Members(s.poppedExpiry))
              && (s.p.Image() == old(s.p.Image()) <==>
                    !StatFailed(old(s.p.files), AcceptedOf(batch, staged), faults))
  {
    hide BatchState.Linked, BatchState.Balanced, Provider.InMemory, DiskAgrees, HeapOrdered, PathSet, Planned,
         WellFormed;
    hide BatchState.Staged, Provider.Cached, FilesMatch, Names, Tracks, BatchState.HasPurged, Processed, Total;
    hide RecencyList;
    hide KeysOf, BatchState.QueueSplit, Provider.Indexed, Members, AllWellFormed, AcceptedOf, Installs, StatFailed;
    hide Moves, BatchState.NewBodies;
    OpensStage(s);
    var accepted;
    results, accepted, trace, evictions := StageBatch(s, batch, budget);
    staged := results;
    var ok;
    ok, moved := Conclude(s, accepted, faults, syncFails, persistFails);
    if !ok {
      results := Failed(results);
    } else {
      Ended(s.p, trace[|batch|], budget, old(s.Shortage()));
    }
  }

  lemma Ended(p: Provider, last: Stage, budget: Budget, behind: int)
    requires p.Cached() == last.cache && p.cacheUsed == last.used && p.physicalUsed == last.physical
    requires last.physical <= budget.physicalAvailable && ShortageOf(last) <= behind
    requires AccountedTotal(last.cache) <= budget.accountedAvailable + behind
    ensures Ends(p.Image(), last, budget, behind)
  {
  }

  lemma WithinLimits(p: Provider, last: Stage, budget: Budget, behind: int)
    requires Ends(p.Image(), last, budget, behind)
    ensures AccountedTotal(p.Cached()) <= budget.accountedAvailable + behind
    ensures p.physicalUsed <= budget.physicalAvailable
  {
  }

  /** Flushes one batch. It commits as a whole or leaves index, queue and counters alone. `staged`
      is what each write came to before the files and the transaction had their say. */
  method FlushBatch(p: Provider, batch: seq<PendingWrite>, now: int, limits: Limits, usage: Option<DiskUsage>,
                    faults: seq<Fault>, syncFails: bool, persistFails: bool)
    returns (results: seq<WriteResult>, ghost order: seq<Key>, ghost staged: seq<WriteResult>, ghost trace: seq<Stage>,
             ghost evictions: seq<seq<Key>>, ghost moved: seq<Key>)
    requires p.Valid() && AllWellFormed(batch) && |batch| <= |faults|
    modifies p, p.expirations, p.expirations.Elements()
    ensures p.Valid() && |results| == |batch| && SweepOrder(old(p.Cached()), now, order)
    ensures fresh(p.expirations.Elements() - old(p.expirations.Elements()))
    ensures usage.None? ==> forall i :: 0 <= i < |batch| ==> results[i] == IoError
    ensures usage.Some? ==>
              && Processed(trace, evictions, batch, staged, old(p.lru), p.stale, p.bodyPathLength,
                           BudgetFor(limits, batch, usage, old(p.physicalUsed)))
              && |staged| == |batch| && trace[0].cache == Purged(old(p.Cached()), Due(old(p.Cached()), now))
              && Opens(trace[0], old(p.Shortage()) + Lost(old(p.Cached()), order))
              && results == if Commits(old(p.files), batch, staged, faults, syncFails, persistFails) then staged
                         else Failed(staged)
    ensures SomeStored(results) ==>
              var budget := BudgetFor(limits, batch, usage, old(p.physicalUsed));
              && Ends(p.Image(), trace[|batch|], budget, old(p.Shortage()) + Lost(old(p.Cached()), order))
              && Moves(old(p.lru), p.lru, p.Cached(), moved, trace[|batch|].accepted)
              && p.orphans <= old(p.orphans) && p.dirtyItems == {} && p.dirtyGroups == {}
    ensures SomeStored(results) && !limits.auto && limits.maxBytes > 0 ==>
              AccountedTotal(p.Cached()) <= limits.maxBytes + old(p.Shortage()) + Lost(old(p.Cached()), order)
    ensures SomeStored(results) && p.physicalUsed > 0 ==>
              var percent := if limits.maxDiskUsagePercent < 1 then 80
                             else if limits.maxDiskUsagePercent > 90 then 90 else limits.maxDiskUsagePercent;
              && usage.Some? && 100 * p.physicalUsed <= usage.value.total * percent
              && 100 * (p.physicalUsed + usage.value.used - old(p.physicalUsed) - Transient(batch))
                 <= usage.value.total * percent
    ensures |staged| <= |batch| && (!SomeStored(results) ==> moved == [] && p.Shortage() == old(p.Shortage()))
    ensures !SomeStored(results) ==>
              && Indexes(p.Image()) == Indexes(old(p.Image()))
              && p.expirations.Elements() == old(p.expirations.Elements())
              && (p.Image() == old(p.Image()) <==> !StatFailed(old(p.files), AcceptedOf(batch, staged), faults))
  {
    hide BatchState.Linked, BatchState.Balanced, Provider.InMemory, DiskAgrees, HeapOrdered, Planned;
    hide WellFormed, Transient, Due, SweepOrder, Lost, PopOrder, Commits, Moves, BatchState.NewBodies, StatFailed;
    hide BatchState.Staged, Provider.Cached, FilesMatch, Names, Tracks, BatchState.HasPurged, Processed, Total;
    hide Purged, RecencyList;
    hide KeysOf, BatchState.QueueSplit, Provider.Indexed, AllWellFormed, CapacityAvailable;
    staged, trace, evictions, moved := [], [], [], [];
    NothingInstalled(p.files, batch, faults);
    var s := OpenBatch(p, now);
    order := PopOrder(s.poppedExpiry);
    if usage.None? {
      s.RestoreExpiry();
      results := seq(|batch|, _ => IoError);
      return;
    }
    var budget := CapacityAvailable(limits, Transient(batch), usage.value, p.physicalUsed);
    ghost var after;
    results, staged, trace, evictions, after := Attempt(s, batch, budget, faults, syncFails, persistFails);
    moved := if SomeStored(results) then after else [];
    if SomeStored(results) {
      WithinLimits(p, trace[|batch|], budget, old(p.Shortage()) + Lost(old(p.Cached()), order));
      ByteLimit(limits, Transient(batch), usage.value, old(p.physicalUsed));
      DiskShare(limits, Transient(batch), usage.value, old(p.physicalUsed), p.physicalUsed);
    }
  }

  lemma NothingInstalled(files: map<Path, Blob>, batch: seq<PendingWrite>, faults: seq<Fault>)
    requires |batch| <= |faults|
    ensures !StatFailed(files, AcceptedOf(batch, []), faults)
  {
  }

  /** The first stage of a batch: nothing accepted, and the counters stand for the swept cache. */
  ghost predicate Opens(first: Stage, behind: int)
  {
    first.accepted == {} && Counted(first) && ShortageOf(first) <= behind
  }

  lemma OpensStage(s: BatchState)
    requires s.Balanced()
    ensures Opens(StageOf(s, {}), s.Shortage())
  {
  }

  /** The results of a batch that was not committed. */
  function Failed(results: seq<WriteResult>): (r: seq<WriteResult>)
    ensures |r| == |results| && !SomeStored(r)
  {
    seq(|results|, i requires 0 <= i < |results| => if results[i] == Stored then IoError else results[i])
  }

  /** What a sweep leaves for the rest of the batch. */
  lemma Swept(s: BatchState, d: set<Key>)
    requires s.HasPurged(d) && s.p.Indexed() && d <= s.p.items.Keys && KeysOf(s.poppedExpiry) == d
    ensures s.Linked() && s.Balanced() && s.Staged() == Purged(s.p.Cached(), d) && RecencyList(s.p.items, s.p.lru)
    ensures Planned(s.p.Cached(), s.Staged(), s.obsoleteFiles, s.items.Keys, {})
    ensures KeysOf(s.poppedExpiry) <= s.items.Keys && s.NewBodies() == {}
  {
    SweepPlanned(s, d);
    NoStagedBody(s);
    s.StagedSome();
  }

  /** At every stage of a batch the counters stand for the cache, and the account has not fallen
      further behind. */
  lemma {:induction false} StagesCounted(trace: seq<Stage>, evictions: seq<seq<Key>>, batch: seq<PendingWrite>,
                                         results: seq<WriteResult>, lru: seq<Key>, stale: nat, pathLength: nat,
                                         budget: Budget, i: nat)
    requires Processed(trace, evictions, batch, results, lru, stale, pathLength, budget) && Counted(trace[0])
    requires i <= |results|
    ensures Counted(trace[i]) && ShortageOf(trace[i]) <= ShortageOf(trace[0])
  {
    hide Counted, Admits, ShortageOf;
    if i > 0 {
      StagesCounted(trace, evictions, batch, results, lru, stale, pathLength, budget, i - 1);
      assert StepOf(trace, evictions, batch, results, i - 1, lru, stale, pathLength, budget);
      AdmitsCounted(trace[i - 1], trace[i], batch[i - 1], results[i - 1], evictions[i - 1], lru, stale, pathLength,
                    budget);
    }
  }

  /** From exact counters a batch can be processed in one way only: the results, the evictions and
      every stage are determined. */
  lemma {:induction false} ProcessedUnique(trace: seq<Stage>, evictions: seq<seq<Key>>, results: seq<WriteResult>,
                                           trace': seq<Stage>, evictions': seq<seq<Key>>, results': seq<WriteResult>,
                                           batch: seq<PendingWrite>, lru: seq<Key>, stale: nat, pathLength: nat,
                                           budget: Budget, i: nat)
    requires Processed(trace, evictions, batch, results, lru, stale, pathLength, budget)
    requires Processed(trace', evictions', batch, results', lru, stale, pathLength, budget)
    requires i <= |results| == |results'| && trace[0] == trace'[0] && Counted(trace[0]) && ShortageOf(trace[0]) == 0
    ensures trace[i] == trace'[i] && results[..i] == results'[..i] && evictions[..i] == evictions'[..i]
    ensures Counted(trace[i]) && ShortageOf(trace[i]) == 0
  {
    hide Counted, Admits, ShortageOf;
    if i > 0 {
      ProcessedUnique(trace, evictions, results, trace', evictions', results', batch, lru, stale, pathLength, budget,
                      i - 1);
      var n := i - 1;
      assert StepOf(trace, evictions, batch, results, n, lru, stale, pathLength, budget);
      assert StepOf(trace', evictions', batch, results', n, lru, stale, pathLength, budget);
      AdmitsUnique(trace[n], trace[i], batch[n], results[n], evictions[n], trace'[i], results'[n], evictions'[n],
                   lru, stale, pathLength, budget);
      AdmitsCounted(trace[n], trace[i], batch[n], results[n], evictions[n], lru, stale, pathLength, budget);
      assert results[..i] == results[..n] + [results[n]] && results'[..i] == results'[..n] + [results'[n]];
      assert evictions[..i] == evictions[..n] + [evictions[n]] && evictions'[..i] == evictions'[..n] + [evictions'[n]];
    }
  }

  lemma AdmitsCounted(a: Stage, b: Stage, w: PendingWrite, r: WriteResult, evicted: seq<Key>, lru: seq<Key>, stale: nat,
                      pathLength: nat, budget: Budget)
    requires Admits(a, b, w, r, evicted, lru, stale, pathLength, budget) && Counted(a)
    ensures Counted(b) && ShortageOf(b) <= ShortageOf(a)
  {
  }

  /** A body accepted earlier in the batch is untouched by a write under another key. */
  lemma AcceptedKept(a: Stage, b: Stage, w: PendingWrite, r: WriteResult, evicted: seq<Key>, lru: seq<Key>, stale: nat,
                     pathLength: nat, budget: Budget, k: Key)
    requires Admits(a, b, w, r, evicted, lru, stale, pathLength, budget)
    requires k in a.accepted && k in Bodies(a.cache) && !IsMappingKey(k) && k != w.variedKey
    ensures k in b.accepted && k in Bodies(b.cache) && b.cache[k] == a.cache[k]
  {
    if r.Stored? {
      var all := Evictable(lru, a.cache, a.accepted + {w.variedKey});
      EvictableMembers(lru, a.cache, a.accepted + {w.variedKey});
      forall x | x in evicted ensures x in all {
        var i :| 0 <= i < |evicted| && evicted[i] == x;
        assert all[i] == x;
      }
      assert Purged(a.cache, KeySet(evicted))[k] == a.cache[k];
    }
  }

  lemma Rejected(a: Stage, b: Stage, w: PendingWrite, r: WriteResult, evicted: seq<Key>, lru: seq<Key>, stale: nat,
                 pathLength: nat, budget: Budget)
    requires Admits(a, b, w, r, evicted, lru, stale, pathLength, budget) && !r.Stored?
    ensures b == a
  {
  }

  lemma {:induction false} LastWriteHeld(trace: seq<Stage>, evictions: seq<seq<Key>>, batch: seq<PendingWrite>,
                                         results: seq<WriteResult>, lru: seq<Key>, stale: nat, pathLength: nat,
                                         budget: Budget, i: nat, j: nat)
    requires Processed(trace, evictions, batch, results, lru, stale, pathLength, budget) && AllWellFormed(batch)
    requires i < j <= |results| && results[i].Stored?
    requires forall n :: i < n < j && results[n].Stored? ==> batch[n].variedKey != batch[i].variedKey
    ensures var k := batch[i].variedKey;
            && k in trace[j].accepted && k in trace[j].cache
            && trace[j].cache[k] == Entry(BodyRecord(batch[i], stale, pathLength), TagsOf(batch[i]))
  {
    hide Admits, Evictable, Purged, BodyRecord;
    assert batch[i] in batch;
    var k := batch[i].variedKey;
    if j == i + 1 {
      assert StepOf(trace, evictions, batch, results, i, lru, stale, pathLength, budget);
      JustStored(trace[i], trace[j], batch[i], evictions[i], lru, stale, pathLength, budget);
    } else {
      LastWriteHeld(trace, evictions, batch, results, lru, stale, pathLength, budget, i, j - 1);
      assert StepOf(trace, evictions, batch, results, j - 1, lru, stale, pathLength, budget);
      JustStoredBody(batch[i], stale, pathLength);
      if results[j - 1].Stored? || batch[j - 1].variedKey != k {
        AcceptedKept(trace[j - 1], trace[j], batch[j - 1], results[j - 1], evictions[j - 1], lru, stale, pathLength,
                     budget, k);
      } else {
        Rejected(trace[j - 1], trace[j], batch[j - 1], results[j - 1], evictions[j - 1], lru, stale, pathLength,
                 budget);
      }
    }
  }

  /** The last accepted write of a key decides what the batch stores under it: no later write of
      the batch evicts or changes that body. */
  lemma LastWriteWins(trace: seq<Stage>, evictions: seq<seq<Key>>, batch: seq<PendingWrite>, results: seq<WriteResult>,
                      lru: seq<Key>, stale: nat, pathLength: nat, budget: Budget, i: nat, j: nat)
    requires Processed(trace, evictions, batch, results, lru, stale, pathLength, budget) && AllWellFormed(batch)
    requires i < j <= |results| && results[i].Stored?
    requires forall n :: i < n < j && results[n].Stored? ==> batch[n].variedKey != batch[i].variedKey
    ensures var w := batch[i];
            && w.variedKey in trace[j].accepted && w.variedKey in trace[j].cache
            && var e := trace[j].cache[w.variedKey];
            && e.record.value == Body(BodyFile(w.variedKey, w.checksum)) && e.record.checksum == w.checksum
            && e.record.compressedSize == w.compressedSize && e.record.physicalSize == w.physicalSize
            && e.record.lastAccess == w.now && e.record.expiresAt == Some(w.now + w.duration + stale)
            && forall g :: g in e.tags <==> g in w.groups
  {
    hide Processed, AllWellFormed;
    LastWriteHeld(trace, evictions, batch, results, lru, stale, pathLength, budget, i, j);
  }

  lemma JustStoredBody(w: PendingWrite, stale: nat, pathLength: nat)
    ensures IsBody(Entry(BodyRecord(w, stale, pathLength), TagsOf(w)))
  {
  }

  lemma JustStored(a: Stage, b: Stage, w: PendingWrite, evicted: seq<Key>, lru: seq<Key>, stale: nat, pathLength: nat,
                   budget: Budget)
    requires Admits(a, b, w, Stored, evicted, lru, stale, pathLength, budget) && WellFormedWrite(w)
    ensures w.variedKey in b.accepted && w.variedKey in b.cache
    ensures b.cache[w.variedKey] == Entry(BodyRecord(w, stale, pathLength), TagsOf(w))
  {
    assert w.variedKey != MappingKey(w.baseKey);
  }
}
