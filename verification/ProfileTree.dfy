/** A profile's files, the calls that change them, and the launch-time projection over them. */
module ProfileTree {
  import opened Wrappers
  import opened Ordering
  import opened ContentModel
  import opened Journal
  import opened Markers
  import opened ProjectionPlan
  import opened ProjectionProofs
  import opened ProjectionTheorems
  import opened ProjectionCommit
  import opened ProjectionValidation

  /** Staging the first `n` desired items. */
  function StagedUpTo(job: Job, files: Files, n: nat): Files
    requires n <= |job.desired.items|
  {
    map i | 0 <= i < n && !job.Skipped(job.desired.items[i], files)
            && job.Source(job.desired.items[i]) in files ::
      Staged(job.tx, i) := files[job.Source(job.desired.items[i])]
  }

  /** Whether the skip decision of an item looks at the file at its target. */
  predicate LooksAtTarget(job: Job, x: ProjectedItem)
  {
    job.Previous(x).None? || job.Previous(x).value.isOverride
  }

  lemma SkipAgrees(job: Job, files: Files, later: Files, x: ProjectedItem)
    requires LooksAtTarget(job, x) ==> (Instance(x.target) in later <==> Instance(x.target) in files)
    ensures job.Skipped(x, later) == job.Skipped(x, files)
  {
  }

  /** Every target that is not backed up is there or not as before. */
  ghost predicate TargetsKept(job: Job, before: Files, after: Files)
  {
    forall t :: !MovedAway(job, Instance(t)) ==> (Instance(t) in after <==> Instance(t) in before)
  }

  /** The backups leave alone every target a skip decision will look at. */
  lemma LookedAtStays(job: Job, x: ProjectedItem)
    requires DistinctKeys(job.platform, job.previous) && LooksAtTarget(job, x)
    ensures !MovedAway(job, Instance(x.target))
  {
    if y :| y in job.previous && job.Replaced(y) && Instance(x.target) == Instance(y.target) {
      PreviousFound(job, y);
    }
  }

  lemma RunShift(env: Env, w: World, m: Move, rest: seq<Step>, journal: seq<Move>)
    ensures var (next, ok) := Rename(env, w, m);
            Execute(env, w, [Shift(m)] + rest, journal)
            == if ok then Execute(env, next, rest, journal + [m])
               else Outcome(next, journal, Stopped(if TakesEffectLate(env, w, m) then Some(m) else None))
  {
    assert ([Shift(m)] + rest)[1..] == rest;
  }

  lemma RunCheckpoint(env: Env, w: World, rest: seq<Step>, journal: seq<Move>)
    ensures Execute(env, w, [Checkpoint] + rest, journal)
            == var next := World(w.files, w.clock + 1);
               if env.schedule(w.clock).Works? then Execute(env, next, rest, journal)
               else Outcome(next, journal, Stopped(None))
  {
    assert ([Checkpoint] + rest)[1..] == rest;
  }

  ghost predicate NoFaults(env: Env)
  {
    forall k: nat :: env.schedule(k).Works?
  }

  predicate MarkerFits(job: Job)
  {
    |job.platform.encode(job.desired)| <= MAX_MARKER_BYTES
  }

  class Tree {
    const env: Env
    const platform: Platform
    var files: Files
    var clock: nat

    ghost function Now(): World
      reads this
    {
      World(files, clock)
    }

    constructor (env: Env, platform: Platform, files: Files)
      ensures this.env == env && this.platform == platform && this.files == files && clock == 0
    {
      this.env, this.platform, this.files, clock := env, platform, files, 0;
    }

    // ----- Calls --------------------------------------------------------------------------------------

    method RenameNew(m: Move) returns (ok: bool)
      modifies this
      ensures (Now(), ok) == Rename(env, old(Now()), m)
    {
      var fault := env.schedule(clock);
      var can := CanMove(env, files, m);
      clock := clock + 1;
      if can && !fault.Refuses? {
        files := Moved(files, m);
      }
      ok := can && fault.Works?;
    }

    /** A call that creates the file `path`: complete, not at all, or leaving a residue behind. */
    method CreateNew(path: Path, bytes: Bytes) returns (ok: bool)
      modifies this
      ensures ok ==> path !in old(files) && files == old(files)[path := bytes]
      ensures !ok ==> SameExcept(old(files), files, path)
      ensures !ok ==> !env.schedule(old(clock)).Works? || Occupied(env, old(files), path)
    {
      var fault := env.schedule(clock);
      clock := clock + 1;
      if Occupied(env, files, path) || fault.Refuses? {
        return false;
      }
      files := files[path := if fault.Late? then fault.residue else bytes];
      ok := fault.Works?;
    }

    /** A call that creates or removes no file: making a directory, or a checkpoint. */
    method Pass() returns (ok: bool)
      modifies this
      ensures Now() == World(old(files), old(clock) + 1) && ok == env.schedule(old(clock)).Works?
    {
      ok := env.schedule(clock).Works?;
      clock := clock + 1;
    }

    method RemoveTransaction(tx: string) returns (ok: bool)
      modifies this
      ensures (Now(), ok) == RemoveTree(env, old(Now()), tx)
    {
      var fault := env.schedule(clock);
      clock := clock + 1;
      match fault {
        case Works => files := OutsideOf(files, tx);
        case Refuses =>
        case Late(_, kept) => files := map p | p in files && (p in kept || !Within(p, tx)) :: files[p];
      }
      ok := fault.Works?;
    }

    // ----- Staging --------------------------------------------------------------------------------------

    /** Stages one item: skips it, or copies its source into its slot. */
    method StageItem(job: Job, ghost before: Files, i: nat, staged: map<string, Path>) returns (r: Option<map<string, Path>>)
      requires job.env == env && job.platform == platform && Validated(job, before) && i < |job.desired.items|
      requires files == before + StagedUpTo(job, before, i) && Recorded(job, before, staged, i)
      modifies this
      ensures r.Some? ==> files == before + StagedUpTo(job, before, i + 1) && Recorded(job, before, r.value, i + 1)
      ensures r.None? ==> OutsideOf(files, job.tx) == before && !NoFaults(env)
    {
      var x := job.desired.items[i];
      SkipWhileStaging(job, before, i, x);
      if job.Skipped(x, files) {
        StagedSkip(job, before, i);
        return Some(staged);
      }
      StagedFacts(job, before, i);
      var copied := CreateNew(Staged(job.tx, i), files[job.Source(x)]);
      if !copied {
        ResidueInside(job, before, i, files);
        return None;
      }
      StagedCopied(job, before, i);
      RecordOne(job, before, staged, i);
      return Some(staged[platform.key(x.target) := Staged(job.tx, i)]);
    }

    /** Copies every item that is not skipped; the result says which slot holds which key. */
    method StageDesired(job: Job) returns (r: Option<map<string, Path>>)
      requires job.env == env && job.platform == platform && Validated(job, files)
      modifies this
      ensures r.Some? ==> files == old(files) + StagedSlots(job, old(files)) && RecordedAll(job, old(files), r.value)
      ensures r.Some? ==> CopiesMatch(job, old(files), files)
      ensures r.None? ==> OutsideOf(files, job.tx) == old(files) && !NoFaults(env)
    {
      var staged: map<string, Path> := map[];
      ghost var before := files;
      NothingStagedYet(job, before);
      for i := 0 to |job.desired.items|
        invariant files == before + StagedUpTo(job, before, i) && Recorded(job, before, staged, i)
      {
        var next := StageItem(job, before, i, staged);
        if next.None? {
          return None;
        }
        staged := next.value;
      }
      EverythingRecorded(job, before, staged);
      EverythingStaged(job, before);
      StagedCopiesMatch(job, before);
      return Some(staged);
    }

    // ----- The transaction ----------------------------------------------------------------------------

    /** Moves one replaced file to its slot. */
    method BackUpItem(job: Job, order: seq<ProjectedItem>, i: nat, backups: seq<Move>, ghost rest: seq<Step>)
      returns (journal: seq<Move>, ok: bool)
      requires job.env == env && job.platform == platform && i < |order| && order[i] in job.previous
      modifies this
      ensures ok ==> Execute(env, old(Now()), BackupSteps(job, order, i) + rest, backups)
                     == Execute(env, Now(), BackupSteps(job, order, i + 1) + rest, journal)
      ensures !ok ==> StoppedHere(Execute(env, old(Now()), BackupSteps(job, order, i) + rest, backups), Now(), journal)
      ensures TargetsKept(job, old(files), files) && (MarkerFile in files <==> MarkerFile in old(files))
    {
      var y := order[i];
      BackupStep(job, order, i, rest);
      if y.isOverride || job.Unchanged(y) {
        return backups, true;
      }
      var m := Move(Instance(y.target), Backup(job.tx, i));
      assert MovedAway(job, m.source);
      RunShift(env, Now(), m, BackupSteps(job, order, i + 1) + rest, backups);
      ok := RenameNew(m);
      journal := if ok then backups + [m] else backups;
    }

    /**
     * Moves replaced files to their slots. `rest` is what the plan does afterwards: running the
     * whole plan from the start is running `rest` from here, or has stopped here.
     */
    method BackUp(job: Job, ghost rest: seq<Step>) returns (backups: seq<Move>, ok: bool)
      requires job.env == env && job.platform == platform
      modifies this
      ensures ok ==> Execute(env, old(Now()), BackupSteps(job, PreviousInOrder(job), 0) + rest, [])
                     == Execute(env, Now(), rest, backups)
      ensures !ok ==>
                StoppedHere(Execute(env, old(Now()), BackupSteps(job, PreviousInOrder(job), 0) + rest, []), Now(), backups)
      ensures TargetsKept(job, old(files), files) && (MarkerFile in files <==> MarkerFile in old(files))
    {
      var order := PreviousInOrder(job);
      SameElements(order, job.previous);
      backups, ok := [], true;
      ghost var whole := Execute(env, Now(), BackupSteps(job, order, 0) + rest, []);
      for i := 0 to |order|
        invariant whole == Execute(env, Now(), BackupSteps(job, order, i) + rest, backups)
        invariant TargetsKept(job, old(files), files) && (MarkerFile in files <==> MarkerFile in old(files))
      {
        assert order[i] in order;
        backups, ok := BackUpItem(job, order, i, backups, rest);
        if !ok {
          return;
        }
      }
      NoMoreBackups(job, order, rest);
    }

    /** Puts one fresh file in place and passes the checkpoint after it. */
    method ActivateItem(job: Job, ghost before: Files, staged: map<string, Path>, order: seq<ProjectedItem>, i: nat,
                        journal: seq<Move>, ghost rest: seq<Step>)
      returns (activated: seq<Move>, ok: bool)
      requires job.env == env && job.platform == platform && i < |order|
      requires forall x :: x in order ==> x in job.desired.items
      requires RecordedAll(job, before, staged)
      requires LooksAtTarget(job, order[i]) ==> (Instance(order[i].target) in files <==> Instance(order[i].target) in before)
      modifies this
      ensures ok ==> Execute(env, old(Now()), ActivationSteps(job, before, order, i) + rest, journal)
                     == Execute(env, Now(), ActivationSteps(job, before, order, i + 1) + rest, journal + activated)
      ensures !ok ==> StoppedHere(Execute(env, old(Now()), ActivationSteps(job, before, order, i) + rest, journal),
                                  Now(), journal + activated)
      ensures OthersKept(old(files), files, order[i].target)
    {
      var x := order[i];
      activated, ok := [], true;
      ActivationStep(job, before, order, i, rest);
      SkipAgrees(job, before, files, x);
      assert journal + [] == journal;
      if job.Skipped(x, files) {
        return;
      }
      var m := Move(staged[platform.key(x.target)], Instance(x.target));
      assert m == ActivationMove(job, x);
      ghost var tail := ActivationSteps(job, before, order, i + 1) + rest;
      RunShift(env, Now(), m, [Checkpoint] + tail, journal);
      ok := RenameNew(m);
      if !ok {
        return;
      }
      activated := [m];
      RunCheckpoint(env, Now(), tail, journal + [m]);
      ok := Pass();
    }

    /** Puts the fresh files in place, one checkpoint after each. */
    method ActivateAll(job: Job, ghost before: Files, staged: map<string, Path>, order: seq<ProjectedItem>,
                       backups: seq<Move>, ghost rest: seq<Step>)
      returns (activations: seq<Move>, ok: bool)
      requires job.env == env && job.platform == platform && RecordedAll(job, before, staged)
      requires DistinctTargets(order) && forall x :: x in order ==> x in job.desired.items
      requires TargetsFrom(job, before, files, order, 0)
      modifies this
      ensures ok ==> Execute(env, old(Now()), ActivationSteps(job, before, order, 0) + rest, backups)
                     == Execute(env, Now(), rest, backups + activations)
      ensures !ok ==> StoppedHere(Execute(env, old(Now()), ActivationSteps(job, before, order, 0) + rest, backups),
                                  Now(), backups + activations)
    {
      activations, ok := [], true;
      ghost var whole := Execute(env, Now(), ActivationSteps(job, before, order, 0) + rest, backups);
      Concatenated(backups, [], []);
      for i := 0 to |order|
        invariant whole == Execute(env, Now(), ActivationSteps(job, before, order, i) + rest, backups + activations)
        invariant TargetsFrom(job, before, files, order, i)
      {
        ghost var reached := files;
        var activated: seq<Move>;
        activated, ok := ActivateItem(job, before, staged, order, i, backups + activations, rest);
        Concatenated(backups, activations, activated);
        activations := activations + activated;
        if !ok {
          return;
        }
        TargetsAdvance(job, before, reached, files, order, i);
      }
      NoMoreActivations(job, before, order, rest);
    }

    /** All desired items, in the order of their keys. */
    method Activate(job: Job, ghost before: Files, staged: map<string, Path>, backups: seq<Move>, ghost rest: seq<Step>)
      returns (activations: seq<Move>, ok: bool)
      requires job.env == env && job.platform == platform
      requires DistinctKeys(platform, job.previous) && DistinctKeys(platform, job.desired.items)
      requires RecordedAll(job, before, staged) && TargetsKept(job, before, files)
      modifies this
      ensures ok ==> Execute(env, old(Now()), ActivationSteps(job, before, DesiredInOrder(job), 0) + rest, backups)
                     == Execute(env, Now(), rest, backups + activations)
      ensures !ok ==>
                StoppedHere(Execute(env, old(Now()), ActivationSteps(job, before, DesiredInOrder(job), 0) + rest, backups),
                            Now(), backups + activations)
    {
      var order := DesiredInOrder(job);
      OrderKeepsDistinct(platform, job.desired.items, order);
      SeedsKept(job, before, files, order);
      activations, ok := ActivateAll(job, before, staged, order, backups, rest);
    }

    /** Moves the current marker aside, if there is one. */
    method BackUpMarker(job: Job, backups: seq<Move>, ghost rest: seq<Step>) returns (journal: seq<Move>, ok: bool)
      requires job.env == env
      modifies this
      ensures ok ==> Execute(env, old(Now()), Shifts(MarkerBackup(job, old(files))) + rest, backups)
                     == Execute(env, Now(), rest, journal)
      ensures !ok ==> StoppedHere(Execute(env, old(Now()), Shifts(MarkerBackup(job, old(files))) + rest, backups),
                                  Now(), journal)
      ensures TargetsKept(job, old(files), files)
    {
      MarkerStep(job, files, rest);
      if MarkerFile !in files {
        return backups, true;
      }
      var m := Move(MarkerFile, BackupMarker(job.tx));
      RunShift(env, Now(), m, rest, backups);
      ok := RenameNew(m);
      journal := if ok then backups + [m] else backups;
    }

    /** The rename that commits the projection. */
    method CommitMarker(job: Job, ghost journal: seq<Move>) returns (committed: seq<Move>, ok: bool)
      requires job.env == env
      modifies this
      ensures ok ==> Execute(env, old(Now()), [Shift(CommitMove(job))], journal)
                     == Outcome(Now(), journal + committed, Completed)
      ensures !ok ==> StoppedHere(Execute(env, old(Now()), [Shift(CommitMove(job))], journal), Now(), journal + committed)
    {
      RunShift(env, Now(), CommitMove(job), [], journal);
      assert [Shift(CommitMove(job))] + [] == [Shift(CommitMove(job))];
      assert journal + [] == journal;
      ok := RenameNew(CommitMove(job));
      committed := if ok then [CommitMove(job)] else [];
    }

    /** Backs up, activates and commits: exactly the plan, with the journal it leaves. */
    method RunPlan(job: Job, ghost before: Files, staged: map<string, Path>)
      returns (backups: seq<Move>, activations: seq<Move>, ok: bool)
      requires job.env == env && job.platform == platform && files == AfterStaging(job, before)
      requires DistinctKeys(platform, job.previous) && DistinctKeys(platform, job.desired.items)
      requires RecordedAll(job, before, staged)
      modifies this
      ensures ok ==> Executed(job, before, old(clock)) == Outcome(Now(), backups + activations, Completed)
      ensures !ok ==> StoppedHere(Executed(job, before, old(clock)), Now(), backups + activations)
    {
      ghost var commit := [Shift(CommitMove(job))];
      ghost var active := ActivationSteps(job, before, DesiredInOrder(job), 0) + commit;
      PlanParts(job, before);
      StagedTargets(job, before);
      activations := [];
      backups, ok := BackUp(job, Shifts(MarkerBackup(job, before)) + active);
      Concatenated(backups, [], []);
      if !ok {
        return;
      }
      ghost var reached := files;
      backups, ok := BackUpMarker(job, backups, active);
      Concatenated(backups, [], []);
      if !ok {
        return;
      }
      TargetsKeptTwice(job, before, AfterStaging(job, before), reached);
      TargetsKeptTwice(job, before, reached, files);
      activations, ok := Activate(job, before, staged, backups, commit);
      if !ok {
        return;
      }
      var committed: seq<Move>;
      committed, ok := CommitMarker(job, backups + activations);
      Concatenated(backups, activations, committed);
      activations := activations + committed;
    }

    /** Moves every file of the journal back, from the end; a failure is remembered and passed over. */
    method MoveBack(moves: seq<Move>) returns (ok: bool)
      modifies this
      ensures (Now(), ok) == Rollback(env, old(Now()), moves)
    {
      ok := true;
      ghost var whole := Rollback(env, Now(), moves);
      assert moves[..|moves|] == moves;
      for i := |moves| downto 0
        invariant whole == (Rollback(env, Now(), moves[..i]).0, ok && Rollback(env, Now(), moves[..i]).1)
      {
        var m := moves[i];
        assert moves[..i + 1][..i] == moves[..i];
        if m.destination in files {
          var moved := RenameNew(Back(m));
          ok := ok && moved;
        }
      }
    }

    /** Activations are undone before backups. */
    method RollbackMoves(activations: seq<Move>, backups: seq<Move>) returns (ok: bool)
      modifies this
      ensures (Now(), ok) == Rollback(env, old(Now()), backups + activations)
    {
      RollbackSplit(env, Now(), backups, activations);
      var activationsOk := MoveBack(activations);
      var backupsOk := MoveBack(backups);
      ok := activationsOk && backupsOk;
    }

    /** Writes the new marker next to the staged copies. */
    method StageMarker(job: Job, ghost before: Files) returns (r: Result<(), ProjectionError>)
      requires job.env == env && job.platform == platform && Validated(job, before)
      requires files == before + StagedSlots(job, before)
      modifies this
      ensures r.Success? ==> files == AfterStaging(job, before)
      ensures r.Failure? ==> OutsideOf(files, job.tx) == before
      ensures r == Failure(MarkerTooLarge) <==> !MarkerFits(job)
      ensures r.Failure? ==> r.error == MarkerTooLarge || (r.error == CallFailed && !NoFaults(env))
    {
      var bytes := platform.encode(job.desired);
      SlotsInside(job, before);
      if |bytes| > MAX_MARKER_BYTES {
        ResidueOutside(before, StagedSlots(job, before), files, job.tx, StagedMarker(job.tx));
        return Failure(MarkerTooLarge);
      }
      var written := CreateNew(StagedMarker(job.tx), bytes);
      if !written {
        ResidueOutside(before, StagedSlots(job, before), files, job.tx, StagedMarker(job.tx));
        return Failure(CallFailed);
      }
      return Success(());
    }

    /** Removes the directory of a transaction that never began to move files. */
    method CleanUpAfter(primary: ProjectionError, tx: string) returns (error: ProjectionError)
      modifies this
      ensures OutsideOf(files, tx) == OutsideOf(old(files), tx)
      ensures error == primary || error == CleanupFailed(primary)
    {
      RemoveTreeOutside(env, Now(), tx);
      var removed := RemoveTransaction(tx);
      error := if removed then primary else CleanupFailed(primary);
    }

    /** Stages everything the plan will put in place. */
    method Stage(job: Job) returns (r: Result<map<string, Path>, ProjectionError>)
      requires job.env == env && job.platform == platform && Validated(job, files)
      modifies this
      ensures r.Success? ==> files == AfterStaging(job, old(files)) && RecordedAll(job, old(files), r.value)
      ensures r.Failure? ==> OutsideOf(files, job.tx) == old(files) && Harmless(r.error)
      ensures r.Success? ==> MarkerFits(job)
      ensures NoFaults(env) && MarkerFits(job) ==> r.Success?
    {
      ghost var before := files;
      var staged := StageDesired(job);
      if staged.None? {
        var error := CleanUpAfter(CallFailed, job.tx);
        return Failure(error);
      }
      var marker := StageMarker(job, before);
      if marker.Failure? {
        OutsideTwice(files, job.tx);
        var error := CleanUpAfter(marker.error, job.tx);
        return Failure(error);
      }
      return Success(staged.value);
    }

    /** Undoes a stopped plan; the directory goes only if everything was undone. */
    method Recover(job: Job, ghost o: Outcome, activations: seq<Move>, backups: seq<Move>)
      returns (error: ProjectionError)
      requires job.env == env && StoppedHere(o, Now(), backups + activations)
      modifies this
      ensures error == RollbackFailed(CallFailed, false) ==> EndsAs(ProjectionTheorems.Recover(job, o), files, Stuck)
      ensures error == CallFailed || error == RollbackFailed(CallFailed, true) ==>
                EndsAs(ProjectionTheorems.Recover(job, o), files, RolledBack)
      ensures error == CallFailed || (error.RollbackFailed? && error.primary == CallFailed)
    {
      var undone := RollbackMoves(activations, backups);
      if !undone {
        return RollbackFailed(CallFailed, false);
      }
      var removed := RemoveTransaction(job.tx);
      return if removed then CallFailed else RollbackFailed(CallFailed, true);
    }

    /** Runs the plan once everything is staged, and cleans up or recovers. */
    method RunStaged(job: Job, ghost before: Files, staged: map<string, Path>) returns (r: Result<(), ProjectionError>)
      requires job.env == env && job.platform == platform
      requires DistinctKeys(platform, job.previous) && DistinctKeys(platform, job.desired.items)
      requires files == AfterStaging(job, before) && RecordedAll(job, before, staged)
      requires NoFaults(env) ==> Executed(job, before, clock).status.Completed?
      modifies this
      ensures Ended(job, before, old(clock), files, r) && r != Failure(TransactionCollision)
      ensures NoFaults(env) ==> r.Success?
    {
      var backups, activations, ok := RunPlan(job, before, staged);
      if !ok {
        RecoveryEnds(job, before, old(clock));
        var error := Recover(job, Executed(job, before, old(clock)), activations, backups);
        return Failure(error);
      }
      CommitEnds(job, before, old(clock), Now(), backups + activations);
      var _ := RemoveTransaction(job.tx);
      return Success(());
    }

    /** The transaction; `started` is when the plan began to run. */
    method ApplyTransaction(job: Job, ghost existing: map<string, Existing>)
      returns (r: Result<(), ProjectionError>, ghost started: nat)
      requires job.env == env && job.platform == platform
      requires DistinctKeys(platform, job.previous) && DistinctKeys(platform, job.desired.items)
      requires Checked(job, files, existing) && files.Keys !! env.directories && MarkerFile !in env.directories
      modifies this
      ensures r == Failure(TransactionCollision) <==> DirectoryTaken(env, old(files), job.tx)
      ensures DirectoryTaken(env, old(files), job.tx) ==> files == old(files)
      ensures !DirectoryTaken(env, old(files), job.tx) ==> Concluded(job, old(files), started, files, r)
      ensures r.Success? ==> !DirectoryTaken(env, old(files), job.tx) && MarkerFits(job)
      ensures NoFaults(env) && !DirectoryTaken(env, old(files), job.tx) && MarkerFits(job) ==> r.Success?
    {
      ghost var before := files;
      started := 0;
      if DirectoryTaken(env, files, job.tx) {
        return Failure(TransactionCollision), 0;
      }
      ChecksSuffice(job, files, existing);
      NothingInside(files, job.tx);
      var made := Pass();
      if !made {
        return Failure(CallFailed), 0;
      }
      var staged := Stage(job);
      if staged.Failure? {
        return Failure(staged.error), 0;
      }
      started := clock;
      NoFaultsComplete(job, before, started);
      r := RunStaged(job, before, staged.value);
    }

    /** Checks everything, then applies the transaction. */
    method CheckAndApply(job: Job) returns (r: Result<(), ProjectionError>, ghost started: nat)
      requires job.env == env && job.platform == platform
      requires DistinctKeys(platform, job.previous) && DistinctKeys(platform, job.desired.items)
      requires files.Keys !! env.directories && MarkerFile !in env.directories
      modifies this
      ensures (r.Failure? && files == old(files)) || Concluded(job, old(files), started, files, r)
      ensures r.Success? ==> ChecksPass(job, old(files))
      ensures NoFaults(env) && ChecksPass(job, old(files)) ==> r.Success?
    {
      started := 0;
      var existing := Scan(platform, env, files, Parents(job.previous) + Parents(job.desired.items));
      if existing.Failure? {
        return Failure(existing.error), 0;
      }
      ScannedMeansScannable(platform, env, files, Parents(job.previous) + Parents(job.desired.items), existing.value);
      CheckedOnce(job, files, existing.value);
      var previousOk := ValidatePrevious(platform, files, existing.value, job.previous);
      if previousOk.Failure? {
        return Failure(previousOk.error), 0;
      }
      var foreignOk := ValidateForeign(platform, job.previous, existing.value, job.desired.items);
      if foreignOk.Failure? {
        return Failure(foreignOk.error), 0;
      }
      var sourcesOk := VerifySources(platform, files, job.desired);
      if sourcesOk.Failure? {
        return Failure(sourcesOk.error), 0;
      }
      r, started := ApplyTransaction(job, existing.value);
    }

    /** The items of the previous marker, whether it is the desired one, and the desired marker. */
    method ReadMarkers(launch: Launch) returns (r: Result<(seq<ProjectedItem>, bool, Marker), ProjectionError>)
      requires launch.platform == platform && launch.env == env && files.Keys !! env.directories
      ensures r.Success? <==> MarkersAcceptable(launch, files)
      ensures r.Success? ==> r.value.0 == CurrentItems(platform, files) && r.value.2 == launch.Marker()
      ensures r.Success? ==> (r.value.1 <==> NothingToDo(launch, files))
      ensures r.Success? ==> DistinctKeys(platform, r.value.0) && DistinctKeys(platform, r.value.2.items)
      ensures r.Success? ==> MarkerFile !in env.directories
    {
      if !platform.validIdentifier(launch.profile) || !platform.validIdentifier(launch.revision) {
        return Failure(IdentifierInvalid);
      }
      var previous := ReadPreviousMarker(platform, env, files, launch.profile);
      if previous.Failure? {
        return Failure(previous.error);
      }
      var desired := BuildDesired(platform, launch.profile, launch.revision, launch.lock);
      if desired.Failure? {
        return Failure(desired.error);
      }
      var items := if previous.value.Some? then previous.value.value.items else [];
      return Success((items, desired.value.items == [] && previous.value == Some(desired.value), desired.value));
    }

    /** Reconciles the instance with an immutable revision before a launch. */
    method ProjectForLaunch(profile: string, revision: string, lock: Option<ContentLock>, tx: string)
      returns (r: Result<(), ProjectionError>, ghost started: nat)
      requires files.Keys !! env.directories
      modifies this
      ensures Projected(Launch(platform, env, tx, profile, revision, lock), old(files), started, files, r)
      ensures r.Success? ==> Acceptable(Launch(platform, env, tx, profile, revision, lock), old(files))
      ensures NoFaults(env) && Acceptable(Launch(platform, env, tx, profile, revision, lock), old(files)) ==> r.Success?
    {
      started := 0;
      var launch := Launch(platform, env, tx, profile, revision, lock);
      var markers := ReadMarkers(launch);
      if markers.Failure? {
        return Failure(markers.error), 0;
      }
      if markers.value.1 {
        return Success(()), 0;
      }
      ghost var before := files;
      r, started := CheckAndApply(Job(platform, env, tx, markers.value.0, markers.value.2));
      LaunchProjected(launch, before, started, files, r);
    }
  }

  lemma LaunchProjected(launch: Launch, before: Files, started: nat, after: Files, r: Result<(), ProjectionError>)
    requires (r.Failure? && after == before) || Concluded(launch.JobOn(before), before, started, after, r)
    ensures Projected(launch, before, started, after, r)
  {
  }

  // ----- A launch ----------------------------------------------------------------------------------------------

  /** What the marker on disk says is managed or seeded. */
  function CurrentItems(platform: Platform, files: Files): seq<ProjectedItem>
  {
    if MarkerFile in files && platform.decode(files[MarkerFile]).Some?
    then platform.decode(files[MarkerFile]).value.items
    else []
  }

  /** One launch: what is to be projected, and where the transaction will work. */
  datatype Launch = Launch(platform: Platform, env: Env, tx: string, profile: string, revision: string,
                           lock: Option<ContentLock>)
  {
    function Marker(): Marker
    {
      DesiredMarker(platform, profile, revision, lock)
    }

    function JobOn(files: Files): Job
    {
      Job(platform, env, tx, CurrentItems(platform, files), Marker())
    }
  }

  /** The marker already is the desired one and lists nothing. */
  ghost predicate NothingToDo(launch: Launch, files: Files)
  {
    && launch.Marker().items == []
    && MarkerFile in files && launch.platform.decode(files[MarkerFile]) == Some(launch.Marker())
  }

  /** Names and markers are in order. */
  ghost predicate MarkersAcceptable(launch: Launch, files: Files)
  {
    && launch.platform.validIdentifier(launch.profile) && launch.platform.validIdentifier(launch.revision)
    && MarkerAcceptable(launch.platform, launch.env, files, launch.profile)
    && Buildable(launch.platform, launch.profile, launch.revision, launch.lock)
  }

  /** Every check of a launch passes. */
  ghost predicate Acceptable(launch: Launch, files: Files)
  {
    MarkersAcceptable(launch, files) && (NothingToDo(launch, files) || ChecksPass(launch.JobOn(files), files))
  }

  /** The directories can be read, and what stands in them agrees with both markers and the sources. */
  ghost predicate ChecksPass(job: Job, files: Files)
  {
    && !Unscannable(job.platform, job.env, files, Parents(job.previous) + Parents(job.desired.items))
    && (forall existing ::
         Scanned(job.platform, job.env, files, Parents(job.previous) + Parents(job.desired.items), existing) ==>
           Checked(job, files, existing))
    && !DirectoryTaken(job.env, files, job.tx)
    && MarkerFits(job)
  }

  /** A scan has only one result. */
  lemma ScannedUnique(platform: Platform, env: Env, files: Files, directories: set<string>,
                      e: map<string, Existing>, f: map<string, Existing>)
    requires Scanned(platform, env, files, directories, e) && Scanned(platform, env, files, directories, f)
    ensures e == f
  {
  }

  lemma CheckedOnce(job: Job, files: Files, existing: map<string, Existing>)
    requires Scanned(job.platform, job.env, files, Parents(job.previous) + Parents(job.desired.items), existing)
    requires !Unscannable(job.platform, job.env, files, Parents(job.previous) + Parents(job.desired.items))
    ensures ChecksPass(job, files) <==>
            Checked(job, files, existing) && !DirectoryTaken(job.env, files, job.tx) && MarkerFits(job)
  {
    var directories := Parents(job.previous) + Parents(job.desired.items);
    forall e | Scanned(job.platform, job.env, files, directories, e)
      ensures e == existing
    {
      ScannedUnique(job.platform, job.env, files, directories, e, existing);
    }
  }

  lemma NoFaultsComplete(job: Job, files: Files, started: nat)
    requires Validated(job, files)
    ensures NoFaults(job.env) ==> Executed(job, files, started).status.Completed?
  {
    if NoFaults(job.env) {
      CommitsWithoutFaults(job, files, started);
    }
  }

  /**
   * What a launch-time projection does to the files: nothing, if it returns early or fails a
   * check; otherwise what the transaction does.
   */
  ghost predicate Projected(launch: Launch, before: Files, started: nat, after: Files, r: Result<(), ProjectionError>)
  {
    if after == before && (r.Failure? || NothingToDo(launch, before)) then true
    else Concluded(launch.JobOn(before), before, started, after, r)
  }

  // ----- What a projection call may end in ----------------------------------------------------------------

  /** Some name is already taken in the transaction directory. */
  predicate DirectoryTaken(env: Env, files: Files, tx: string)
  {
    exists p :: p in files.Keys + env.directories && Within(p, tx)
  }

  ghost predicate EndsAs(ending: Ending, files: Files, verdict: Verdict)
  {
    ending.world.files == files && ending.verdict == verdict
  }

  /** Errors that say nothing about a rollback. */
  predicate Harmless(error: ProjectionError)
  {
    !error.RollbackFailed? && !error.TransactionCollision?
  }

  /** A success is a commit; a failed rollback keeps the directory; any other failure is undone. */
  ghost predicate Ended(job: Job, before: Files, started: nat, after: Files, r: Result<(), ProjectionError>)
  {
    match r
    case Success(_) => EndsAs(Transact(job, before, started), after, Committed)
    case Failure(error) =>
      if error.RollbackFailed? && !error.undone then EndsAs(Transact(job, before, started), after, Stuck)
      else OutsideOf(after, job.tx) == before || EndsAs(Transact(job, before, started), after, RolledBack)
  }

  ghost predicate Concluded(job: Job, before: Files, started: nat, after: Files, r: Result<(), ProjectionError>)
  {
    Validated(job, before) && Ended(job, before, started, after, r)
  }

  lemma CommitEnds(job: Job, files: Files, started: nat, w: World, journal: seq<Move>)
    requires Executed(job, files, started) == Outcome(w, journal, Completed)
    ensures EndsAs(Transact(job, files, started), RemoveTree(job.env, w, job.tx).0.files, Committed)
  {
  }

  lemma RecoveryEnds(job: Job, files: Files, started: nat)
    requires Executed(job, files, started).status.Stopped?
    ensures Transact(job, files, started) == ProjectionTheorems.Recover(job, Executed(job, files, started))
  {
  }

  lemma SlotsInside(job: Job, files: Files)
    ensures forall p :: p in StagedSlots(job, files) ==> Within(p, job.tx)
  {
  }

  lemma OutsideTwice(files: Files, tx: string)
    ensures OutsideOf(OutsideOf(files, tx), tx) == OutsideOf(files, tx)
  {
  }

  lemma NothingInside(files: Files, tx: string)
    requires forall p :: p in files ==> !Within(p, tx)
    ensures OutsideOf(files, tx) == files
  {
  }

  lemma Concatenated<T>(a: seq<T>, b: seq<T>, c: seq<T>)
    ensures (a + b) + c == a + (b + c) && a + [] == a
  {
  }

  lemma FromTheStart<T>(s: seq<T>)
    ensures s[0..] == s
  {
  }

  lemma StagedTargets(job: Job, files: Files)
    ensures TargetsKept(job, files, AfterStaging(job, files))
    ensures MarkerFile in AfterStaging(job, files) <==> MarkerFile in files
  {
  }

  lemma TargetsKeptTwice(job: Job, before: Files, reached: Files, files: Files)
    requires TargetsKept(job, before, reached) && TargetsKept(job, reached, files)
    ensures TargetsKept(job, before, files)
  {
  }

  lemma MarkerStep(job: Job, files: Files, rest: seq<Step>)
    ensures Shifts(MarkerBackup(job, files)) + rest
            == if MarkerFile in files then [Shift(Move(MarkerFile, BackupMarker(job.tx)))] + rest else rest
  {
    var m := Move(MarkerFile, BackupMarker(job.tx));
    assert [m][1..] == [];
  }

  lemma {:induction false} ShiftsConcat(a: seq<Move>, b: seq<Move>)
    ensures Shifts(a + b) == Shifts(a) + Shifts(b)
  {
    if a == [] {
      assert a + b == b;
    } else {
      assert (a + b)[1..] == a[1..] + b;
      ShiftsConcat(a[1..], b);
    }
  }

  /** The plan is the four parts the transaction runs one after the other. */
  lemma PlanParts(job: Job, files: Files)
    ensures Plan(job, files)
            == BackupSteps(job, PreviousInOrder(job), 0)
               + (Shifts(MarkerBackup(job, files))
                  + (ActivationSteps(job, files, DesiredInOrder(job), 0) + [Shift(CommitMove(job))]))
  {
    var order, desired := PreviousInOrder(job), DesiredInOrder(job);
    ShiftsConcat(BackupMoves(job, order, 0), MarkerBackup(job, files));
    FromTheStart(order);
    FromTheStart(desired);
    Concatenated(BackupSteps(job, order, 0), Shifts(MarkerBackup(job, files)),
                 ActivationSteps(job, files, desired, 0) + [Shift(CommitMove(job))]);
  }

  // ----- Staging, step by step ----------------------------------------------------------------------------

  ghost predicate SameExcept(before: Files, after: Files, path: Path)
  {
    forall p :: p != path ==> (p in after <==> p in before) && (p in before ==> after[p] == before[p])
  }

  /** The slots of the first `n` items are filed under their keys. */
  ghost predicate Recorded(job: Job, files: Files, staged: map<string, Path>, n: nat)
    requires n <= |job.desired.items|
  {
    forall j :: 0 <= j < n && !job.Skipped(job.desired.items[j], files) ==>
      var k := job.platform.key(job.desired.items[j].target);
      k in staged && staged[k] == Staged(job.tx, j)
  }

  ghost predicate RecordedAll(job: Job, files: Files, staged: map<string, Path>)
  {
    forall x :: x in job.desired.items && !job.Skipped(x, files) ==>
      var k := job.platform.key(x.target);
      k in staged && staged[k] == ActivationMove(job, x).source
  }

  lemma EverythingRecorded(job: Job, files: Files, staged: map<string, Path>)
    requires DistinctKeys(job.platform, job.desired.items) && Recorded(job, files, staged, |job.desired.items|)
    ensures RecordedAll(job, files, staged)
  {
  }

  /** Every staged copy has the declared size and hash, so comparing them after copying never fails. */
  ghost predicate CopiesMatch(job: Job, before: Files, files: Files)
  {
    forall i :: 0 <= i < |job.desired.items| && !job.Skipped(job.desired.items[i], before) ==>
      Staged(job.tx, i) in files && FileMatches(job.platform, files[Staged(job.tx, i)], job.desired.items[i])
  }

  lemma StagedCopiesMatch(job: Job, files: Files)
    requires Validated(job, files)
    ensures CopiesMatch(job, files, files + StagedSlots(job, files))
  {
    forall i | 0 <= i < |job.desired.items| && !job.Skipped(job.desired.items[i], files)
      ensures Staged(job.tx, i) in StagedSlots(job, files)
      ensures FileMatches(job.platform, StagedSlots(job, files)[Staged(job.tx, i)], job.desired.items[i])
    {
      assert job.desired.items[i] in job.desired.items;
    }
  }

  lemma NothingStagedYet(job: Job, files: Files)
    ensures files == files + StagedUpTo(job, files, 0)
    ensures Recorded(job, files, map[], 0)
  {
    assert StagedUpTo(job, files, 0) == map[];
  }

  lemma EverythingStaged(job: Job, files: Files)
    ensures StagedUpTo(job, files, |job.desired.items|) == StagedSlots(job, files)
  {
  }

  lemma RecordOne(job: Job, files: Files, staged: map<string, Path>, i: nat)
    requires DistinctKeys(job.platform, job.desired.items) && i < |job.desired.items| && Recorded(job, files, staged, i)
    ensures Recorded(job, files, staged[job.platform.key(job.desired.items[i].target) := Staged(job.tx, i)], i + 1)
  {
  }

  lemma SkipWhileStaging(job: Job, files: Files, i: nat, x: ProjectedItem)
    requires i <= |job.desired.items|
    ensures job.Skipped(x, files + StagedUpTo(job, files, i)) == job.Skipped(x, files)
  {
    assert Instance(x.target) !in StagedUpTo(job, files, i);
  }

  lemma StagedSkip(job: Job, files: Files, i: nat)
    requires i < |job.desired.items| && job.Skipped(job.desired.items[i], files)
    ensures StagedUpTo(job, files, i + 1) == StagedUpTo(job, files, i)
  {
  }

  lemma StagedFacts(job: Job, files: Files, i: nat)
    requires Validated(job, files) && i < |job.desired.items|
    ensures var all, source := files + StagedUpTo(job, files, i), job.Source(job.desired.items[i]);
            source in files && source in all && all[source] == files[source]
    ensures !Occupied(job.env, files + StagedUpTo(job, files, i), Staged(job.tx, i))
  {
    assert job.desired.items[i] in job.desired.items;
    assert Within(Staged(job.tx, i), job.tx);
    assert job.Source(job.desired.items[i]) !in StagedUpTo(job, files, i);
  }

  lemma StagedNext(job: Job, files: Files, i: nat)
    requires i < |job.desired.items| && !job.Skipped(job.desired.items[i], files)
    requires job.Source(job.desired.items[i]) in files
    ensures StagedUpTo(job, files, i + 1)
         == StagedUpTo(job, files, i)[Staged(job.tx, i) := files[job.Source(job.desired.items[i])]]
  {
  }

  lemma AddOne(files: Files, slots: Files, p: Path, bytes: Bytes)
    ensures (files + slots)[p := bytes] == files + slots[p := bytes]
  {
  }

  lemma StagedCopied(job: Job, files: Files, i: nat)
    requires Validated(job, files) && i < |job.desired.items| && !job.Skipped(job.desired.items[i], files)
    ensures job.Source(job.desired.items[i]) in files
    ensures (files + StagedUpTo(job, files, i))[Staged(job.tx, i) := files[job.Source(job.desired.items[i])]]
         == files + StagedUpTo(job, files, i + 1)
  {
    assert job.desired.items[i] in job.desired.items;
    StagedNext(job, files, i);
    AddOne(files, StagedUpTo(job, files, i), Staged(job.tx, i), files[job.Source(job.desired.items[i])]);
  }

  /** What a failed copy leaves is inside the transaction directory. */
  lemma ResidueInside(job: Job, before: Files, i: nat, files: Files)
    requires Validated(job, before) && i < |job.desired.items|
    requires SameExcept(before + StagedUpTo(job, before, i), files, Staged(job.tx, i))
    ensures OutsideOf(files, job.tx) == before
  {
    var slots := StagedUpTo(job, before, i);
    assert forall p :: p in slots ==> Within(p, job.tx);
    ResidueOutside(before, slots, files, job.tx, Staged(job.tx, i));
  }

  lemma ResidueOutside(before: Files, slots: Files, files: Files, tx: string, path: Path)
    requires forall p :: p in before ==> !Within(p, tx)
    requires forall p :: p in slots ==> Within(p, tx)
    requires Within(path, tx) && SameExcept(before + slots, files, path)
    ensures OutsideOf(files, tx) == before
  {
    var end := OutsideOf(files, tx);
    forall p
      ensures p in end <==> p in before
      ensures p in before ==> end[p] == before[p]
    {
    }
  }

  // ----- Running the plan, loop by loop -------------------------------------------------------------------

  /** The plan stopped, with these files and this journal. */
  ghost predicate StoppedHere(o: Outcome, w: World, journal: seq<Move>)
  {
    o.status.Stopped? && o.world == w && o.journal == journal
  }

  /** The backups from position `i` on. */
  function BackupSteps(job: Job, items: seq<ProjectedItem>, i: nat): seq<Step>
    requires i <= |items|
  {
    Shifts(BackupMoves(job, items[i..], i))
  }

  lemma BackupStep(job: Job, items: seq<ProjectedItem>, i: nat, rest: seq<Step>)
    requires i < |items|
    ensures BackupSteps(job, items, i) + rest
            == if job.Replaced(items[i])
               then [Shift(Move(Instance(items[i].target), Backup(job.tx, i)))] + (BackupSteps(job, items, i + 1) + rest)
               else BackupSteps(job, items, i + 1) + rest
  {
    assert items[i..][1..] == items[i + 1..];
    if job.Replaced(items[i]) {
      var m, tail := Move(Instance(items[i].target), Backup(job.tx, i)), BackupMoves(job, items[i + 1..], i + 1);
      assert ([m] + tail)[1..] == tail;
    }
  }

  lemma NoMoreBackups(job: Job, items: seq<ProjectedItem>, rest: seq<Step>)
    ensures BackupSteps(job, items, |items|) + rest == rest
  {
    assert items[|items|..] == [];
  }

  /** The activations from position `i` on. */
  function ActivationSteps(job: Job, files: Files, items: seq<ProjectedItem>, i: nat): seq<Step>
    requires i <= |items| && forall x :: x in items ==> x in job.desired.items
  {
    CheckedShifts(ActivationMoves(job, files, items[i..]))
  }

  lemma ActivationStep(job: Job, files: Files, items: seq<ProjectedItem>, i: nat, rest: seq<Step>)
    requires i < |items| && forall x :: x in items ==> x in job.desired.items
    ensures ActivationSteps(job, files, items, i) + rest
            == if job.Skipped(items[i], files) then ActivationSteps(job, files, items, i + 1) + rest
               else [Shift(ActivationMove(job, items[i]))]
                    + ([Checkpoint] + (ActivationSteps(job, files, items, i + 1) + rest))
  {
    assert items[i..][1..] == items[i + 1..];
    if !job.Skipped(items[i], files) {
      var m, tail := ActivationMove(job, items[i]), ActivationMoves(job, files, items[i + 1..]);
      assert ([m] + tail)[1..] == tail;
    }
  }

  lemma NoMoreActivations(job: Job, files: Files, items: seq<ProjectedItem>, rest: seq<Step>)
    requires forall x :: x in items ==> x in job.desired.items
    ensures ActivationSteps(job, files, items, |items|) + rest == rest
  {
    assert items[|items|..] == [];
  }

  /** The targets still to be looked at are there or not as before. */
  ghost predicate TargetsFrom(job: Job, before: Files, files: Files, order: seq<ProjectedItem>, i: nat)
  {
    forall j :: i <= j < |order| && LooksAtTarget(job, order[j]) ==>
      (Instance(order[j].target) in files <==> Instance(order[j].target) in before)
  }

  ghost predicate OthersKept(before: Files, after: Files, target: string)
  {
    forall t :: t != target ==> (Instance(t) in after <==> Instance(t) in before)
  }

  lemma TargetsAdvance(job: Job, before: Files, reached: Files, files: Files, order: seq<ProjectedItem>, i: nat)
    requires i < |order| && DistinctTargets(order)
    requires TargetsFrom(job, before, reached, order, i) && OthersKept(reached, files, order[i].target)
    ensures TargetsFrom(job, before, files, order, i + 1)
  {
  }

  lemma SeedsKept(job: Job, before: Files, files: Files, order: seq<ProjectedItem>)
    requires DistinctKeys(job.platform, job.previous) && TargetsKept(job, before, files)
    ensures TargetsFrom(job, before, files, order, 0)
  {
    forall j | 0 <= j < |order| && LooksAtTarget(job, order[j])
      ensures Instance(order[j].target) in files <==> Instance(order[j].target) in before
    {
      LookedAtStays(job, order[j]);
    }
  }
}
