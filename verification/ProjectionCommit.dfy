/** The files a committed projection leaves, and a failed one that loses a file. */
module ProjectionCommit {
  import opened Wrappers
  import opened Ordering
  import opened ContentModel
  import opened Journal
  import opened Markers
  import opened ProjectionPlan
  import opened ProjectionProofs
  import opened ProjectionTheorems

  /** Some desired item is freshly activated at this place. */
  ghost predicate Activated(job: Job, files: Files, p: Path)
  {
    exists x :: x in job.desired.items && !job.Skipped(x, files) && p == Instance(x.target)
  }

  /** Some managed item of the previous projection was moved away from this place. */
  ghost predicate MovedAway(job: Job, p: Path)
  {
    exists y :: y in job.previous && job.Replaced(y) && p == Instance(y.target)
  }

  /**
   * The committed files: fresh items carry their source's bytes, replaced items are gone, the
   * marker is the desired one, and every other place is as it was.
   */
  ghost predicate CommittedFiles(job: Job, files: Files, end: Files)
  {
    && (forall x :: x in job.desired.items && !job.Skipped(x, files) ==>
         Instance(x.target) in end && job.Source(x) in files && end[Instance(x.target)] == files[job.Source(x)])
    && MarkerFile in end && end[MarkerFile] == job.platform.encode(job.desired)
    && (forall p :: MovedAway(job, p) && !Activated(job, files, p) ==> p !in end)
    && (forall p :: !Within(p, job.tx) && p != MarkerFile && !MovedAway(job, p) && !Activated(job, files, p) ==>
         (p in end <==> p in files) && (p in files ==> end[p] == files[p]))
  }

  lemma DeliveredItem(job: Job, files: Files, x: ProjectedItem)
    requires Validated(job, files) && x in job.desired.items && !job.Skipped(x, files)
    requires Legal(job.env, AfterStaging(job, files), AllMoves(job, files)) && Orderly(AllMoves(job, files))
    ensures var end := Replay(job.env, AfterStaging(job, files), AllMoves(job, files));
            Instance(x.target) in end && end[Instance(x.target)] == files[job.Source(x)]
  {
    var m, moves := ActivationMove(job, x), AllMoves(job, files);
    ActivationShape(job, files, DesiredInOrder(job));
    assert m in Activations(job, files);
    assert m in Backups(job, files) + Activations(job, files);
    var k :| 0 <= k < |moves| && moves[k] == m;
    ReplayDelivers(job.env, AfterStaging(job, files), moves, k);
    StagedCopy(job, files, x);
  }

  lemma StagedCopy(job: Job, files: Files, x: ProjectedItem)
    requires Validated(job, files) && x in job.desired.items && !job.Skipped(x, files)
    ensures ActivationMove(job, x).source in AfterStaging(job, files)
    ensures AfterStaging(job, files)[ActivationMove(job, x).source] == files[job.Source(x)]
  {
    assert ActivationMove(job, x).source in StagedSlots(job, files);
  }

  lemma DeliveredMarker(job: Job, files: Files)
    requires Validated(job, files)
    requires Legal(job.env, AfterStaging(job, files), AllMoves(job, files)) && Orderly(AllMoves(job, files))
    ensures var end := Replay(job.env, AfterStaging(job, files), AllMoves(job, files));
            MarkerFile in end && end[MarkerFile] == job.platform.encode(job.desired)
  {
    var moves := AllMoves(job, files);
    assert moves[|moves| - 1] == CommitMove(job);
    ReplayDelivers(job.env, AfterStaging(job, files), moves, |moves| - 1);
  }

  lemma BackupMeaning(job: Job, files: Files, m: Move)
    requires m in Backups(job, files)
    ensures m.source == MarkerFile || MovedAway(job, m.source)
    ensures Within(m.destination, job.tx)
  {
    var order := PreviousInOrder(job);
    SameElements(order, job.previous);
    BackupShape(job, order, 0);
    if m in BackupMoves(job, order, 0) {
      assert IsBackup(job, order, 0, m);
      assert order[m.destination.index] in order;
    }
  }

  lemma ActivationMeaning(job: Job, files: Files, m: Move)
    requires m in Activations(job, files)
    ensures Within(m.source, job.tx)
    ensures m.destination == MarkerFile || Activated(job, files, m.destination)
  {
    ActivationShape(job, files, DesiredInOrder(job));
    if m in ActivationMoves(job, files, DesiredInOrder(job)) {
      assert IsActivation(job, files, DesiredInOrder(job), m);
    }
  }

  /** Outside the directory, a place is left or filled only as described. */
  lemma MoveMeaning(job: Job, files: Files, m: Move)
    requires m in AllMoves(job, files)
    ensures Within(m.source, job.tx) || m.source == MarkerFile || MovedAway(job, m.source)
    ensures Within(m.destination, job.tx) || m.destination == MarkerFile || Activated(job, files, m.destination)
  {
    assert AllMoves(job, files) == Backups(job, files) + Activations(job, files);
    if m in Backups(job, files) {
      BackupMeaning(job, files, m);
    } else {
      ActivationMeaning(job, files, m);
    }
  }

  lemma Vacated(job: Job, files: Files, p: Path)
    requires Validated(job, files) && MovedAway(job, p) && !Activated(job, files, p)
    requires Legal(job.env, AfterStaging(job, files), AllMoves(job, files))
    ensures p !in Replay(job.env, AfterStaging(job, files), AllMoves(job, files))
  {
    var moves := AllMoves(job, files);
    var y :| y in job.previous && job.Replaced(y) && p == Instance(y.target);
    BackedUp(job, files, y);
    var m :| m in Backups(job, files) && m.source == p;
    assert m in moves;
    var k :| 0 <= k < |moves| && moves[k] == m;
    forall n | n in moves
      ensures n.destination != p
    {
      MoveMeaning(job, files, n);
    }
    ReplayVacates(job.env, AfterStaging(job, files), moves, k);
  }

  lemma Unconcerned(job: Job, files: Files, p: Path)
    requires Validated(job, files)
    requires !Within(p, job.tx) && p != MarkerFile && !MovedAway(job, p) && !Activated(job, files, p)
    requires Legal(job.env, AfterStaging(job, files), AllMoves(job, files))
    ensures var end := Replay(job.env, AfterStaging(job, files), AllMoves(job, files));
            (p in end <==> p in files) && (p in files ==> end[p] == files[p])
  {
    var moves := AllMoves(job, files);
    forall m | m in moves
      ensures !Touches(m, p)
    {
      UnconcernedMove(job, files, p, m);
    }
    ReplayUntouched(job.env, AfterStaging(job, files), moves, p);
  }

  lemma UnconcernedMove(job: Job, files: Files, p: Path, m: Move)
    requires !Within(p, job.tx) && p != MarkerFile && !MovedAway(job, p) && !Activated(job, files, p)
    requires m in AllMoves(job, files)
    ensures !Touches(m, p)
  {
    MoveMeaning(job, files, m);
  }

  lemma ReplayedCommit(job: Job, files: Files)
    requires Validated(job, files)
    ensures Legal(job.env, AfterStaging(job, files), AllMoves(job, files))
    ensures CommittedFiles(job, files, Replay(job.env, AfterStaging(job, files), AllMoves(job, files)))
  {
    MovesLegal(job, files);
    MovesOrderly(job, files);
    forall x | x in job.desired.items && !job.Skipped(x, files)
      ensures var end := Replay(job.env, AfterStaging(job, files), AllMoves(job, files));
              Instance(x.target) in end && end[Instance(x.target)] == files[job.Source(x)]
    {
      DeliveredItem(job, files, x);
    }
    DeliveredMarker(job, files);
    forall p | MovedAway(job, p) && !Activated(job, files, p)
      ensures p !in Replay(job.env, AfterStaging(job, files), AllMoves(job, files))
    {
      Vacated(job, files, p);
    }
    forall p | !Within(p, job.tx) && p != MarkerFile && !MovedAway(job, p) && !Activated(job, files, p)
      ensures var end := Replay(job.env, AfterStaging(job, files), AllMoves(job, files));
              (p in end <==> p in files) && (p in files ==> end[p] == files[p])
    {
      Unconcerned(job, files, p);
    }
  }

  lemma CleanupKeepsCommit(job: Job, files: Files, w: World)
    requires CommittedFiles(job, files, w.files)
    ensures CommittedFiles(job, files, RemoveTree(job.env, w, job.tx).0.files)
  {
    var end := RemoveTree(job.env, w, job.tx).0.files;
    assert forall p :: !Within(p, job.tx) ==> (p in end <==> p in w.files) && (p in w.files ==> end[p] == w.files[p]);
  }

  lemma CompletedCommit(job: Job, files: Files, o: Outcome)
    requires Ran(job, files, o) && o.status.Completed?
    ensures CommittedFiles(job, files, o.world.files)
  {
    ReplayedCommit(job, files);
  }

  /** On success the files are exactly the committed ones, whatever the cleanup did. */
  lemma CommitIsExact(job: Job, files: Files, clock: nat)
    requires Validated(job, files) && Transact(job, files, clock).verdict == Committed
    ensures CommittedFiles(job, files, Transact(job, files, clock).world.files)
  {
    var o := Executed(job, files, clock);
    ExecutedRan(job, files, clock);
    CompletedCommit(job, files, o);
    CleanupKeepsCommit(job, files, o.world);
  }

  /** Every desired managed item is then in place with its declared size and hash. */
  lemma ManagedPresent(job: Job, files: Files, end: Files, x: ProjectedItem)
    requires Validated(job, files) && CommittedFiles(job, files, end)
    requires x in job.desired.items && !x.isOverride
    ensures Instance(x.target) in end && FileMatches(job.platform, end[Instance(x.target)], x)
  {
    if job.Skipped(x, files) {
      var y := job.Previous(x).value;
      PreviousMeans(job, x);
      DesiredFound(job, x);
      PreviousFound(job, y);
      NotDisturbed(job, files, x, y);
    }
  }

  /** An item that is already in place is neither moved away nor activated over. */
  lemma NotDisturbed(job: Job, files: Files, x: ProjectedItem, y: ProjectedItem)
    requires Validated(job, files) && x in job.desired.items && job.Skipped(x, files)
    requires y in job.previous && y.target == x.target
    requires job.platform.key(y.target) == job.platform.key(x.target)
    requires job.Previous(x) == Some(y) && SameArtifact(y, x) && job.Desired(x) == Some(x)
    ensures !MovedAway(job, Instance(x.target)) && !Activated(job, files, Instance(x.target))
  {
    if z :| z in job.previous && job.Replaced(z) && Instance(x.target) == Instance(z.target) {
      PreviousFound(job, z);
    }
    if z :| z in job.desired.items && !job.Skipped(z, files) && Instance(x.target) == Instance(z.target) {
      DesiredFound(job, z);
    }
  }

  /** A managed item that is no longer wanted is gone. */
  lemma UnwantedGone(job: Job, files: Files, end: Files, y: ProjectedItem)
    requires Validated(job, files) && CommittedFiles(job, files, end)
    requires y in job.previous && !y.isOverride
    requires forall x :: x in job.desired.items ==> x.target != y.target
    ensures Instance(y.target) !in end
  {
    if job.Desired(y).Some? {
      KeyMapMeaning(job.platform, job.desired.items);
      assert job.Desired(y).value in job.desired.items;
    }
    assert MovedAway(job, Instance(y.target));
  }

  /** A file the previous projection did not manage keeps its bytes; overrides are seeded once. */
  lemma ForeignUntouched(job: Job, files: Files, end: Files, target: string)
    requires Validated(job, files) && CommittedFiles(job, files, end)
    requires Instance(target) in files
    requires forall y :: y in job.previous && !y.isOverride ==> y.target != target
    ensures Instance(target) in end && end[Instance(target)] == files[Instance(target)]
  {
    if x :| x in job.desired.items && !job.Skipped(x, files) && Instance(target) == Instance(x.target) {
      var y := ActivatedOverManaged(job, files, x);
      assert false;
    }
    assert !MovedAway(job, Instance(target));
  }

  /** An override that was seeded before and has been deleted since is not seeded again. */
  lemma DeletedSeedStaysDeleted(job: Job, files: Files, end: Files, x: ProjectedItem)
    requires Validated(job, files) && CommittedFiles(job, files, end)
    requires x in job.desired.items && x.isOverride && Instance(x.target) !in files
    requires job.Previous(x).Some? && job.Previous(x).value.isOverride && job.Previous(x).value.target == x.target
    ensures Instance(x.target) !in end
  {
    if z :| z in job.desired.items && !job.Skipped(z, files) && Instance(x.target) == Instance(z.target) {
      DesiredFound(job, x);
      DesiredFound(job, z);
    }
    if y :| y in job.previous && job.Replaced(y) && Instance(x.target) == Instance(y.target) {
      PreviousFound(job, y);
    }
  }

  // ----- Projecting the same revision again ------------------------------------------------------------

  /** The previous projection is the desired one. */
  ghost predicate SameRevision(job: Job)
  {
    DistinctKeys(job.platform, job.desired.items) && job.previous == job.desired.items
  }

  /** Nothing is replaced and nothing is activated: the plan only renews the marker. */
  lemma RepeatMovesNothing(job: Job, files: Files)
    requires SameRevision(job)
    ensures forall p :: !MovedAway(job, p) && !Activated(job, files, p)
  {
    forall x | x in job.desired.items
      ensures job.Skipped(x, files) && !job.Replaced(x)
    {
      DesiredFound(job, x);
      PreviousFound(job, x);
    }
  }

  /** A repeated projection, once committed, has changed no file but the marker. */
  lemma RepeatIsStable(job: Job, files: Files, end: Files)
    requires Validated(job, files) && SameRevision(job) && CommittedFiles(job, files, end)
    ensures forall p :: !Within(p, job.tx) && p != MarkerFile ==> (p in end <==> p in files)
    ensures forall p :: !Within(p, job.tx) && p != MarkerFile && p in files ==> end[p] == files[p]
    ensures MarkerFile in end && end[MarkerFile] == job.platform.encode(job.desired)
  {
    RepeatMovesNothing(job, files);
  }

  lemma StableUpToMarker(job: Job, files: Files, end: Files)
    requires Validated(job, files) && SameRevision(job) && CommittedFiles(job, files, end)
    ensures OutsideOf(end, job.tx) == files[MarkerFile := job.platform.encode(job.desired)]
  {
    RepeatIsStable(job, files, end);
    var outside, expected := OutsideOf(end, job.tx), files[MarkerFile := job.platform.encode(job.desired)];
    forall p
      ensures p in outside <==> p in expected
      ensures p in expected ==> outside[p] == expected[p]
    {
    }
  }

  /**
   * Returning early when the marker on disk already is the desired one gives what the transaction
   * would have committed: a marker that reads the same, and every other file untouched. The files
   * are identical exactly when the marker on disk is in the form the transaction would write.
   */
  lemma EarlyReturnRefines(job: Job, files: Files, end: Files)
    requires SoundPlatform(job.platform)
    requires Validated(job, files) && SameRevision(job) && CommittedFiles(job, files, end)
    requires MarkerFile in files && job.platform.decode(files[MarkerFile]) == Some(job.desired)
    ensures OutsideOf(end, job.tx) - {MarkerFile} == files - {MarkerFile}
    ensures MarkerFile in end && job.platform.decode(end[MarkerFile]) == job.platform.decode(files[MarkerFile])
    ensures OutsideOf(end, job.tx) == files <==> files[MarkerFile] == job.platform.encode(job.desired)
  {
    StableUpToMarker(job, files, end);
  }

  // ----- A failed projection that loses a file -----------------------------------------------------------

  /** One managed file, no longer wanted, on a disk whose first rename is reported late. */
  function LossyJob(platform: Platform, desired: Marker, item: ProjectedItem): Job
  {
    Job(platform, Env({}, k => if k == 0 then Late([], {}) else Works), "tx", [item], desired)
  }

  /**
   * The first backup happens, is reported as failed, is never undone, and the directory is removed
   * with the only copy in it, although the rollback is reported complete.
   */
  lemma LateRenameLosesFile(platform: Platform, desired: Marker, item: ProjectedItem, bytes: Bytes)
    requires desired.items == [] && !item.isOverride && FileMatches(platform, bytes, item)
    ensures var job, files := LossyJob(platform, desired, item), map[Instance(item.target) := bytes];
            && Validated(job, files)
            && Transact(job, files, 0).verdict == RolledBack
            && !Survives(job, files, Transact(job, files, 0).world.files, Instance(item.target))
  {
    var job, files := LossyJob(platform, desired, item), map[Instance(item.target) := bytes];
    assert NoFaultFrom(job.env, 1);
    OneItemPlan(job, files, item);
    FirstBackupLate(job, files, item);
    ExecutedRan(job, files, 0);
    LateBackupSurvives(job, files, Executed(job, files, 0));
  }

  lemma OneItemPlan(job: Job, files: Files, item: ProjectedItem)
    requires job.previous == [item] && !item.isOverride && job.desired.items == []
    ensures |Plan(job, files)| > 0 && Plan(job, files)[0] == Shift(Move(Instance(item.target), Backup(job.tx, 0)))
  {
    assert job.Replaced(item);
    assert [item][1..] == [];
    assert PreviousInOrder(job) == [item];
    assert BackupMoves(job, [item], 0) == [Move(Instance(item.target), Backup(job.tx, 0))];
  }

  /** If the first call is a late backup rename and nothing else fails, the rollback reports success. */
  lemma FirstBackupLate(job: Job, files: Files, item: ProjectedItem)
    requires Validated(job, files) && job.env.schedule(0).Late? && NoFaultFrom(job.env, 1)
    requires |Plan(job, files)| > 0 && Plan(job, files)[0] == Shift(Move(Instance(item.target), Backup(job.tx, 0)))
    ensures var m := Move(Instance(item.target), Backup(job.tx, 0));
            FailsLate(job, files, 0, m) && LateMove(Executed(job, files, 0)) == Some(m)
    ensures Transact(job, files, 0).verdict == RolledBack
  {
    var m := Move(Instance(item.target), Backup(job.tx, 0));
    assert LateAt(job.env, 0, Plan(job, files), 0, m) && WorksUpTo(job.env, 0, 0);
    assert FailsLate(job, files, 0, m);
    LateExactly(job, files, 0, m);
    StoppedAtOnce(job, files, m);
    RollbackSucceeds(job, files, 0);
  }

  lemma StoppedAtOnce(job: Job, files: Files, m: Move)
    requires |Plan(job, files)| > 0 && Plan(job, files)[0] == Shift(m) && job.env.schedule(0).Late?
    ensures Executed(job, files, 0).status.Stopped? && Executed(job, files, 0).world.clock == 1
  {
  }

  // ----- A rollback that cannot succeed --------------------------------------------------------------------

  /** An old marker and nothing to project. */
  function EmptyJob(platform: Platform, env: Env, desired: Marker): Job
  {
    Job(platform, env, "tx", [], desired)
  }

  /**
   * The commit rename happens and is reported as failed. The old marker's undo then finds its place
   * occupied, so the rollback is stuck whatever the later calls do.
   */
  lemma LateCommitSticks(platform: Platform, env: Env, desired: Marker, old_: Bytes)
    requires desired.items == [] && env.directories == {} && env.schedule(0).Works? && env.schedule(1).Late?
    ensures var job, files := EmptyJob(platform, env, desired), map[MarkerFile := old_];
            Validated(job, files) && Transact(job, files, 0).verdict == Stuck
  {
    var job, files := EmptyJob(platform, env, desired), map[MarkerFile := old_];
    EmptyPlan(job, files);
    assert LateAt(env, 0, Plan(job, files), 1, CommitMove(job)) && WorksUpTo(env, 0, 1);
    LateExactly(job, files, 0, CommitMove(job));
    LateOverFileSticks(job, files, 0);
  }

  lemma EmptyPlan(job: Job, files: Files)
    requires job.previous == [] && job.desired.items == [] && MarkerFile in files
    ensures Plan(job, files) == [Shift(Move(MarkerFile, BackupMarker(job.tx))), Shift(CommitMove(job))]
  {
    var m := Move(MarkerFile, BackupMarker(job.tx));
    assert Backups(job, files) == [m];
    assert [m][1..] == [];
    assert Shifts([m]) == [Shift(m)];
    assert DesiredInOrder(job) == [];
  }
}
