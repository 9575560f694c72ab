/** Whole runs: launches, committed or failed, between arbitrary changes made by the user and the game. */
module ProjectionRuns {
  import opened Wrappers
  import opened Journal
  import opened Markers
  import opened ProjectionPlan
  import opened ProjectionProofs
  import opened ProjectionTheorems
  import opened ProjectionCommit
  import opened ProjectionValidation
  import opened ProfileTree

  predicate Managed(platform: Platform, files: Files, target: string)
  {
    exists y :: y in CurrentItems(platform, files) && !y.isOverride && y.target == target
  }

  /** Every managed item the marker lists is in place, with its declared size and hash. */
  ghost predicate MarkerHonest(platform: Platform, files: Files)
  {
    forall y :: y in CurrentItems(platform, files) && !y.isOverride ==>
      Instance(y.target) in files && FileMatches(platform, files[Instance(y.target)], y)
  }

  predicate SameAt(before: Files, after: Files, p: Path)
  {
    (p in before <==> p in after) && (p in before ==> before[p] == after[p])
  }

  /** Anything may be created, changed or deleted, except the marker and what is managed now. */
  ghost predicate UserEdit(platform: Platform, before: Files, after: Files)
  {
    && SameAt(before, after, MarkerFile)
    && forall t :: Managed(platform, before, t) ==> SameAt(before, after, Instance(t))
  }

  datatype Event = Edit | Project(launch: Launch, started: nat, r: Result<(), ProjectionError>)

  /** An edit, or a launch that ends in any way it can end. */
  ghost predicate Step(platform: Platform, before: Files, after: Files, event: Event)
  {
    match event
    case Edit => UserEdit(platform, before, after)
    case Project(launch, started, r) => launch.platform == platform && Projected(launch, before, started, after, r)
  }

  lemma QuietSame(before: Files, after: Files, tx: string, p: Path)
    requires OutsideOf(after, tx) == before && !Within(p, tx)
    ensures SameAt(before, after, p)
  {
    assert p in OutsideOf(after, tx) <==> p in after;
  }

  // ----- Files that are not the projection's ----------------------------------------------------------------

  /** No planned move has anything to do with a file the marker does not list as managed. */
  lemma ForeignUnmoved(job: Job, files: Files, target: string, m: Move)
    requires Validated(job, files) && m in AllMoves(job, files)
    requires Instance(target) in files && forall y :: y in job.previous && !y.isOverride ==> y.target != target
    ensures !Touches(m, Instance(target))
  {
    MoveMeaning(job, files, m);
    if m.destination == Instance(target) {
      var x :| x in job.desired.items && !job.Skipped(x, files) && Instance(target) == Instance(x.target);
      var y := ActivatedOverManaged(job, files, x);
    }
  }

  /** Every move of a run, reported or late, is a planned one. */
  lemma RunMoves(job: Job, files: Files, o: Outcome)
    requires Ran(job, files, o)
    ensures forall m :: m in o.journal ==> m in AllMoves(job, files)
    ensures LateMove(o).Some? ==> LateMove(o).value in AllMoves(job, files)
  {
    if LateMove(o).Some? {
      LateIsPlanned(job, files, o);
    }
  }

  lemma OutcomeUntouched(env: Env, staged: Files, o: Outcome, p: Path)
    requires Explains(env, staged, o) && forall m :: m in o.journal ==> !Touches(m, p)
    requires LateMove(o).Some? ==> !Touches(LateMove(o).value, p)
    ensures SameAt(staged, o.world.files, p)
  {
    ReplayUntouched(env, staged, o.journal, p);
  }

  lemma RemovalSame(env: Env, w: World, tx: string, p: Path)
    requires !Within(p, tx)
    ensures SameAt(w.files, RemoveTree(env, w, tx).0.files, p)
  {
  }

  /** What follows a run: cleanup, or rollback and then cleanup. */
  function After(job: Job, o: Outcome): World
  {
    if o.status.Completed? then RemoveTree(job.env, o.world, job.tx).0
    else
      var (undone, ok) := Rollback(job.env, o.world, o.journal);
      if ok then RemoveTree(job.env, undone, job.tx).0 else undone
  }

  lemma TransactIsAfter(job: Job, files: Files, clock: nat)
    ensures Transact(job, files, clock).world == After(job, Executed(job, files, clock))
  {
  }

  lemma AfterUntouched(job: Job, o: Outcome, p: Path)
    requires !Within(p, job.tx) && forall m :: m in o.journal ==> !Touches(m, p)
    ensures SameAt(o.world.files, After(job, o).files, p)
  {
    RemovalSame(job.env, o.world, job.tx, p);
    RollbackUntouched(job.env, o.world, o.journal, p);
    RemovalSame(job.env, Rollback(job.env, o.world, o.journal).0, job.tx, p);
  }

  /** However the transaction ends, a place no planned move concerns is as it was. */
  lemma TransactUntouched(job: Job, files: Files, clock: nat, p: Path)
    requires Validated(job, files) && !Within(p, job.tx)
    requires forall m :: m in AllMoves(job, files) ==> !Touches(m, p)
    ensures SameAt(files, Transact(job, files, clock).world.files, p)
  {
    var o := Executed(job, files, clock);
    ExecutedRan(job, files, clock);
    RunMoves(job, files, o);
    StagingSame(job, files, p);
    OutcomeUntouched(job.env, AfterStaging(job, files), o, p);
    AfterUntouched(job, o, p);
    TransactIsAfter(job, files, clock);
  }

  lemma StagingSame(job: Job, files: Files, p: Path)
    requires !Within(p, job.tx)
    ensures SameAt(files, AfterStaging(job, files), p)
  {
  }

  // ----- What a marker found afterwards can be -----------------------------------------------------------------

  /** The three places a marker document is kept in. */
  predicate MarkerSlot(tx: string, p: Path)
  {
    p == MarkerFile || p == BackupMarker(tx) || p == StagedMarker(tx)
  }

  /** A move between marker places, or between others. */
  predicate KeepsSlots(tx: string, m: Move)
  {
    MarkerSlot(tx, m.source) <==> MarkerSlot(tx, m.destination)
  }

  ghost predicate SlotsHold(tx: string, files: Files, documents: set<Bytes>)
  {
    forall p :: p in files && MarkerSlot(tx, p) ==> files[p] in documents
  }

  lemma MovedHolds(tx: string, files: Files, m: Move, documents: set<Bytes>)
    requires SlotsHold(tx, files, documents) && m.source in files && KeepsSlots(tx, m)
    ensures SlotsHold(tx, Moved(files, m), documents)
  {
  }

  lemma {:induction false} ReplayHolds(env: Env, tx: string, files: Files, moves: seq<Move>, documents: set<Bytes>)
    requires SlotsHold(tx, files, documents) && Legal(env, files, moves)
    requires forall m :: m in moves ==> KeepsSlots(tx, m)
    ensures SlotsHold(tx, Replay(env, files, moves), documents)
    decreases |moves|
  {
    if moves != [] {
      assert moves[0] in moves;
      MovedHolds(tx, files, moves[0], documents);
      ReplayHolds(env, tx, Moved(files, moves[0]), moves[1..], documents);
    }
  }

  lemma {:induction false} RollbackHolds(env: Env, tx: string, w: World, journal: seq<Move>, documents: set<Bytes>)
    requires SlotsHold(tx, w.files, documents) && forall m :: m in journal ==> KeepsSlots(tx, m)
    ensures SlotsHold(tx, Rollback(env, w, journal).0.files, documents)
    decreases |journal|
  {
    if journal != [] {
      var last := journal[|journal| - 1];
      assert last in journal;
      var next := if last.destination in w.files then Rename(env, w, Back(last)).0 else w;
      if last.destination in w.files {
        MovedHolds(tx, w.files, Back(last), documents);
      }
      RollbackHolds(env, tx, next, journal[..|journal| - 1], documents);
    }
  }

  lemma PlannedKeepsSlots(job: Job, files: Files, m: Move)
    requires m in AllMoves(job, files)
    ensures KeepsSlots(job.tx, m)
  {
    MoveKinds(job, files, m);
  }

  /** The documents in play: the old marker, if there is one, and the desired one. */
  function Documents(job: Job, files: Files): set<Bytes>
  {
    {job.platform.encode(job.desired)} + if MarkerFile in files then {files[MarkerFile]} else {}
  }

  lemma StagedHolds(job: Job, files: Files)
    requires Validated(job, files)
    ensures SlotsHold(job.tx, AfterStaging(job, files), Documents(job, files))
  {
  }

  lemma OutcomeHolds(job: Job, files: Files, o: Outcome)
    requires Ran(job, files, o)
    ensures SlotsHold(job.tx, o.world.files, Documents(job, files))
    ensures forall m :: m in o.journal ==> KeepsSlots(job.tx, m)
  {
    var documents, staged := Documents(job, files), AfterStaging(job, files);
    StagedHolds(job, files);
    RunMoves(job, files, o);
    forall m | m in o.journal
      ensures KeepsSlots(job.tx, m)
    {
      PlannedKeepsSlots(job, files, m);
    }
    ReplayHolds(job.env, job.tx, staged, o.journal, documents);
    if LateMove(o).Some? {
      PlannedKeepsSlots(job, files, LateMove(o).value);
      MovedHolds(job.tx, Replay(job.env, staged, o.journal), LateMove(o).value, documents);
    }
  }

  lemma RemovalHolds(env: Env, w: World, tx: string, documents: set<Bytes>)
    requires SlotsHold(tx, w.files, documents)
    ensures SlotsHold(tx, RemoveTree(env, w, tx).0.files, documents)
  {
  }

  /** However the transaction ends, a marker found afterwards is the old or the desired one. */
  lemma TransactMarker(job: Job, files: Files, clock: nat)
    requires Validated(job, files)
    ensures var end := Transact(job, files, clock).world.files;
            MarkerFile in end ==> end[MarkerFile] in Documents(job, files)
  {
    var o := Executed(job, files, clock);
    ExecutedRan(job, files, clock);
    OutcomeHolds(job, files, o);
    AfterHolds(job, o, Documents(job, files));
    TransactIsAfter(job, files, clock);
  }

  lemma AfterHolds(job: Job, o: Outcome, documents: set<Bytes>)
    requires SlotsHold(job.tx, o.world.files, documents) && forall m :: m in o.journal ==> KeepsSlots(job.tx, m)
    ensures SlotsHold(job.tx, After(job, o).files, documents)
  {
    RemovalHolds(job.env, o.world, job.tx, documents);
    RollbackHolds(job.env, job.tx, o.world, o.journal, documents);
    RemovalHolds(job.env, Rollback(job.env, o.world, o.journal).0, job.tx, documents);
  }

  /** A desired managed target that exists was managed before. */
  lemma OverwritesManaged(job: Job, before: Files, x: ProjectedItem)
    requires job.previous == CurrentItems(job.platform, before) && Validated(job, before)
    requires x in job.desired.items && !x.isOverride && Instance(x.target) in before
    ensures Managed(job.platform, before, x.target)
  {
    assert MayOverwrite(job, x);
    PreviousMeans(job, x);
  }

  /** A marker that is the old or the desired one manages no file that was foreign. */
  lemma StaysForeign(job: Job, before: Files, after: Files, target: string)
    requires SoundPlatform(job.platform) && job.previous == CurrentItems(job.platform, before)
    requires Validated(job, before) && Instance(target) in before && !Managed(job.platform, before, target)
    requires MarkerFile in after ==> after[MarkerFile] in Documents(job, before)
    ensures !Managed(job.platform, after, target)
  {
    if MarkerFile in after && after[MarkerFile] == job.platform.encode(job.desired) {
      CommittedItems(job, after);
      if x :| x in job.desired.items && !x.isOverride && x.target == target {
        OverwritesManaged(job, before, x);
      }
    }
  }

  lemma CommittedItems(job: Job, after: Files)
    requires SoundPlatform(job.platform) && MarkerFile in after && after[MarkerFile] == job.platform.encode(job.desired)
    ensures CurrentItems(job.platform, after) == job.desired.items
  {
    assert job.platform.decode(job.platform.encode(job.desired)) == Some(job.desired);
  }

  lemma TransactKeepsForeign(job: Job, files: Files, clock: nat, target: string)
    requires SoundPlatform(job.platform) && job.previous == CurrentItems(job.platform, files)
    requires Validated(job, files) && Instance(target) in files && !Managed(job.platform, files, target)
    ensures var end := Transact(job, files, clock).world.files;
            SameAt(files, end, Instance(target)) && !Managed(job.platform, end, target)
  {
    forall m | m in AllMoves(job, files)
      ensures !Touches(m, Instance(target))
    {
      ForeignUnmoved(job, files, target, m);
    }
    TransactUntouched(job, files, clock, Instance(target));
    TransactMarker(job, files, clock);
    StaysForeign(job, files, Transact(job, files, clock).world.files, target);
  }

  lemma QuietKeepsForeign(platform: Platform, before: Files, after: Files, tx: string, target: string)
    requires OutsideOf(after, tx) == before && Instance(target) in before && !Managed(platform, before, target)
    ensures SameAt(before, after, Instance(target)) && !Managed(platform, after, target)
  {
    QuietSame(before, after, tx, Instance(target));
    QuietSame(before, after, tx, MarkerFile);
    assert CurrentItems(platform, after) == CurrentItems(platform, before);
  }

  lemma EndedCases(job: Job, before: Files, started: nat, after: Files, r: Result<(), ProjectionError>)
    requires Ended(job, before, started, after, r)
    ensures OutsideOf(after, job.tx) == before || after == Transact(job, before, started).world.files
  {
  }

  lemma ConcludedKeepsForeign(job: Job, before: Files, started: nat, after: Files, r: Result<(), ProjectionError>,
                              target: string)
    requires SoundPlatform(job.platform) && job.previous == CurrentItems(job.platform, before)
    requires Concluded(job, before, started, after, r)
    requires Instance(target) in before && !Managed(job.platform, before, target)
    ensures SameAt(before, after, Instance(target)) && !Managed(job.platform, after, target)
  {
    EndedCases(job, before, started, after, r);
    if OutsideOf(after, job.tx) == before {
      QuietKeepsForeign(job.platform, before, after, job.tx, target);
    } else {
      TransactKeepsForeign(job, before, started, target);
    }
  }

  /** No launch, however it ends, changes a file that is not managed, or makes it managed. */
  lemma LaunchKeepsForeign(launch: Launch, before: Files, started: nat, after: Files, r: Result<(), ProjectionError>,
                           target: string)
    requires SoundPlatform(launch.platform) && Projected(launch, before, started, after, r)
    requires Instance(target) in before && !Managed(launch.platform, before, target)
    ensures SameAt(before, after, Instance(target)) && !Managed(launch.platform, after, target)
  {
    if after != before {
      ConcludedKeepsForeign(launch.JobOn(before), before, started, after, r, target);
    }
  }

  /** No step but an edit of that very file changes a file that is not managed, or makes it managed. */
  lemma StepKeepsForeign(platform: Platform, before: Files, after: Files, event: Event, target: string)
    requires SoundPlatform(platform) && Step(platform, before, after, event)
    requires Instance(target) in before && !Managed(platform, before, target)
    requires event.Edit? ==> SameAt(before, after, Instance(target))
    ensures SameAt(before, after, Instance(target)) && !Managed(platform, after, target)
  {
    match event
    case Edit =>
      assert CurrentItems(platform, after) == CurrentItems(platform, before);
    case Project(launch, started, r) =>
      LaunchKeepsForeign(launch, before, started, after, r, target);
  }

  // ----- When the marker can be believed -----------------------------------------------------------------------

  lemma SameKeepsHonest(platform: Platform, before: Files, after: Files)
    requires MarkerHonest(platform, before) && SameAt(before, after, MarkerFile)
    requires forall t :: Managed(platform, before, t) ==> SameAt(before, after, Instance(t))
    ensures MarkerHonest(platform, after)
  {
    assert CurrentItems(platform, after) == CurrentItems(platform, before);
    forall y | y in CurrentItems(platform, after) && !y.isOverride
      ensures Instance(y.target) in after && FileMatches(platform, after[Instance(y.target)], y)
    {
      assert Managed(platform, before, y.target);
    }
  }

  lemma CommitIsHonest(job: Job, before: Files, after: Files)
    requires SoundPlatform(job.platform) && Validated(job, before) && CommittedFiles(job, before, after)
    ensures MarkerHonest(job.platform, after)
  {
    CommittedItems(job, after);
    forall x | x in job.desired.items && !x.isOverride
      ensures Instance(x.target) in after && FileMatches(job.platform, after[Instance(x.target)], x)
    {
      ManagedPresent(job, before, after, x);
    }
  }

  lemma ValidatedIsHonest(job: Job, files: Files)
    requires Validated(job, files) && job.previous == CurrentItems(job.platform, files)
    ensures MarkerHonest(job.platform, files)
  {
  }

  predicate SomethingManaged(items: seq<ProjectedItem>)
  {
    exists x :: x in items && !x.isOverride
  }

  /** A late rename after which the marker lists a managed file that is not there. */
  predicate LeavesLie(job: Job, late: Move)
  {
    late.source.Instance? || (late == CommitMove(job) && SomethingManaged(job.desired.items))
  }

  /** The files are the original ones but for this rename. */
  ghost predicate OnlyThisMoved(job: Job, files: Files, end: Files, late: Move)
  {
    && late.source in AfterStaging(job, files) && late.destination !in AfterStaging(job, files)
    && OutsideOf(end, job.tx) == OutsideOf(Moved(AfterStaging(job, files), late), job.tx)
  }

  lemma ElsewhereSame(job: Job, files: Files, end: Files, late: Move, p: Path)
    requires Validated(job, files) && OnlyThisMoved(job, files, end, late)
    requires !Within(p, job.tx) && !Touches(late, p)
    ensures SameAt(files, end, p)
  {
    StagingSame(job, files, p);
    OutsideSame(Moved(AfterStaging(job, files), late), end, job.tx, p);
  }

  lemma OutsideSame(a: Files, b: Files, tx: string, p: Path)
    requires OutsideOf(a, tx) == OutsideOf(b, tx) && !Within(p, tx)
    ensures SameAt(a, b, p)
  {
    assert p in OutsideOf(a, tx) <==> p in OutsideOf(b, tx);
  }

  /** An item's file was backed up unnoticed: its marker still lists it. */
  lemma LateBackupLies(job: Job, files: Files, end: Files, late: Move)
    requires Validated(job, files) && job.previous == CurrentItems(job.platform, files)
    requires OnlyThisMoved(job, files, end, late) && late in Backups(job, files) && late.source.Instance?
    ensures !MarkerHonest(job.platform, end)
  {
    BackupMeaning(job, files, late);
    var y :| y in job.previous && job.Replaced(y) && late.source == Instance(y.target);
    ElsewhereSame(job, files, end, late, MarkerFile);
    assert CurrentItems(job.platform, end) == job.previous;
    assert late.source !in OutsideOf(Moved(AfterStaging(job, files), late), job.tx);
    assert late.source !in OutsideOf(end, job.tx);
  }

  lemma LateMarkerBackupIsHonest(job: Job, files: Files, end: Files, late: Move)
    requires Validated(job, files) && OnlyThisMoved(job, files, end, late)
    requires late.source == MarkerFile && late.destination == BackupMarker(job.tx)
    ensures MarkerHonest(job.platform, end)
  {
    assert MarkerFile !in OutsideOf(Moved(AfterStaging(job, files), late), job.tx);
    assert MarkerFile !in OutsideOf(end, job.tx);
  }

  lemma LateActivationIsHonest(job: Job, files: Files, end: Files, late: Move)
    requires Validated(job, files) && job.previous == CurrentItems(job.platform, files)
    requires OnlyThisMoved(job, files, end, late) && late.source.Staged? && late.destination.Instance?
    ensures MarkerHonest(job.platform, end)
  {
    ValidatedIsHonest(job, files);
    ElsewhereSame(job, files, end, late, MarkerFile);
    forall t | Managed(job.platform, files, t)
      ensures SameAt(files, end, Instance(t))
    {
      assert Instance(t) in AfterStaging(job, files);
      ElsewhereSame(job, files, end, late, Instance(t));
    }
    SameKeepsHonest(job.platform, files, end);
  }

  /** The new marker is there without its files, unless it manages none. */
  lemma LateCommitLies(job: Job, files: Files, end: Files)
    requires SoundPlatform(job.platform) && Validated(job, files) && job.previous == CurrentItems(job.platform, files)
    requires OnlyThisMoved(job, files, end, CommitMove(job))
    ensures MarkerHonest(job.platform, end) <==> !SomethingManaged(job.desired.items)
  {
    var moved := Moved(AfterStaging(job, files), CommitMove(job));
    assert MarkerFile in OutsideOf(moved, job.tx) && moved[MarkerFile] == job.platform.encode(job.desired);
    assert MarkerFile in OutsideOf(end, job.tx);
    CommittedItems(job, end);
    if x :| x in job.desired.items && !x.isOverride {
      NotInPlaceBefore(job, files, x);
      ElsewhereSame(job, files, end, CommitMove(job), Instance(x.target));
    }
  }

  /** Without a marker, a desired managed item has no file yet. */
  lemma NotInPlaceBefore(job: Job, files: Files, x: ProjectedItem)
    requires Validated(job, files) && job.previous == CurrentItems(job.platform, files) && MarkerFile !in files
    requires x in job.desired.items && !x.isOverride
    ensures Instance(x.target) !in files
  {
    if Instance(x.target) in files {
      OverwritesManaged(job, files, x);
    }
  }

  lemma LateHonesty(job: Job, files: Files, end: Files, late: Move)
    requires SoundPlatform(job.platform) && Validated(job, files) && job.previous == CurrentItems(job.platform, files)
    requires OnlyThisMoved(job, files, end, late) && late in AllMoves(job, files)
    ensures MarkerHonest(job.platform, end) <==> !LeavesLie(job, late)
  {
    MoveKinds(job, files, late);
    if late == CommitMove(job) {
      LateCommitLies(job, files, end);
    } else if late.source.Instance? {
      LateBackupLies(job, files, end, late);
    } else if late.source == MarkerFile {
      LateMarkerBackupIsHonest(job, files, end, late);
    } else {
      LateActivationIsHonest(job, files, end, late);
    }
  }

  /** The rename that failed late is one that leaves a lie. */
  ghost predicate Misleads(job: Job, files: Files, clock: nat)
  {
    exists m :: FailsLate(job, files, clock, m) && LeavesLie(job, m)
  }

  lemma MisleadsExactly(job: Job, files: Files, clock: nat)
    requires Validated(job, files)
    ensures Misleads(job, files, clock)
       <==> var late := LateMove(Executed(job, files, clock)); late.Some? && LeavesLie(job, late.value)
  {
    var late := LateMove(Executed(job, files, clock));
    if late.Some? {
      LateExactly(job, files, clock, late.value);
    }
    if m :| FailsLate(job, files, clock, m) && LeavesLie(job, m) {
      LateExactly(job, files, clock, m);
    }
  }

  lemma UndoneIsHonest(job: Job, files: Files, end: Files)
    requires Validated(job, files) && job.previous == CurrentItems(job.platform, files) && OutsideOf(end, job.tx) == files
    ensures MarkerHonest(job.platform, end)
  {
    ValidatedIsHonest(job, files);
    forall p | !Within(p, job.tx)
      ensures SameAt(files, end, p)
    {
      QuietSame(files, end, job.tx, p);
    }
    SameKeepsHonest(job.platform, files, end);
  }

  /**
   * After a failed launch that reports a complete rollback the marker can be believed, exactly
   * unless the rename that failed was an item's backup, or the commit of a marker that manages
   * something, and had in fact happened.
   */
  lemma RolledBackHonesty(job: Job, files: Files, clock: nat)
    requires SoundPlatform(job.platform) && Validated(job, files) && job.previous == CurrentItems(job.platform, files)
    requires Transact(job, files, clock).verdict == RolledBack
    ensures MarkerHonest(job.platform, Transact(job, files, clock).world.files) <==> !Misleads(job, files, clock)
  {
    var o := Executed(job, files, clock);
    ExecutedRan(job, files, clock);
    MisleadsExactly(job, files, clock);
    if LateMove(o).Some? {
      LateIsPlanned(job, files, o);
      OnlyLateRemains(job, files, o);
      LateHonesty(job, files, Transact(job, files, clock).world.files, LateMove(o).value);
    } else {
      Undone(job, files, o);
      UndoneIsHonest(job, files, Transact(job, files, clock).world.files);
    }
  }

  // ----- A marker that lies -------------------------------------------------------------------------------------

  /** One managed file that is no longer wanted, and the marker that lists it. */
  function LyingFiles(platform: Platform, old_: Marker, bytes: Bytes): Files
    requires old_.items != []
  {
    map[Instance(old_.items[0].target) := bytes, MarkerFile := platform.encode(old_)]
  }

  function LyingJob(platform: Platform, env: Env, old_: Marker, desired: Marker): Job
  {
    Job(platform, env, "tx", old_.items, desired)
  }

  /** The backup of the file happens, is reported as failed and not undone; the marker still lists it. */
  lemma LateBackupMisleads(platform: Platform, env: Env, old_: Marker, desired: Marker, item: ProjectedItem, bytes: Bytes)
    requires SoundPlatform(platform) && env.directories == {} && env.schedule(0).Late? && NoFaultFrom(env, 1)
    requires old_.items == [item] && !item.isOverride && FileMatches(platform, bytes, item) && desired.items == []
    ensures var job, files := LyingJob(platform, env, old_, desired), LyingFiles(platform, old_, bytes);
            && Validated(job, files) && MarkerHonest(platform, files)
            && Transact(job, files, 0).verdict == RolledBack
            && !MarkerHonest(platform, Transact(job, files, 0).world.files)
  {
    var job, files := LyingJob(platform, env, old_, desired), LyingFiles(platform, old_, bytes);
    assert CurrentItems(platform, files) == [item];
    assert Validated(job, files);
    OneItemPlan(job, files, item);
    FirstBackupLate(job, files, item);
    RolledBackHonesty(job, files, 0);
  }

  /** Once the marker lies, every launch fails before it changes anything, until an edit repairs the instance. */
  lemma LieBlocksLaunches(launch: Launch, before: Files, started: nat, after: Files, r: Result<(), ProjectionError>)
    requires !MarkerHonest(launch.platform, before) && Projected(launch, before, started, after, r)
    ensures r.Failure? && after == before
  {
    if Validated(launch.JobOn(before), before) {
      ValidatedIsHonest(launch.JobOn(before), before);
    }
  }

  // ----- Runs ------------------------------------------------------------------------------------------------------

  /**
   * A launch that did not mislead: it committed, or was undone up to harmless late renames, or, if
   * its rollback was stuck, left no marker at all.
   */
  ghost predicate Believable(job: Job, before: Files, started: nat, after: Files, r: Result<(), ProjectionError>)
  {
    r.Failure? ==>
      && (r.error.RollbackFailed? && !r.error.undone ==> MarkerFile !in after)
      && (EndsAs(Transact(job, before, started), after, RolledBack) ==> !Misleads(job, before, started))
  }

  lemma ConcludedIsHonest(job: Job, before: Files, started: nat, after: Files, r: Result<(), ProjectionError>)
    requires SoundPlatform(job.platform) && job.previous == CurrentItems(job.platform, before)
    requires Concluded(job, before, started, after, r) && Believable(job, before, started, after, r)
    ensures MarkerHonest(job.platform, after)
  {
    if r.Success? {
      CommitIsExact(job, before, started);
      CommitIsHonest(job, before, after);
    } else if OutsideOf(after, job.tx) == before {
      UndoneIsHonest(job, before, after);
    } else if EndsAs(Transact(job, before, started), after, RolledBack) {
      RolledBackHonesty(job, before, started);
    }
  }

  /** No believable launch, and no edit of unmanaged files, makes the marker lie. */
  lemma StepKeepsHonest(platform: Platform, before: Files, after: Files, event: Event)
    requires SoundPlatform(platform) && MarkerHonest(platform, before) && Step(platform, before, after, event)
    requires event.Project? ==> Believable(event.launch.JobOn(before), before, event.started, after, event.r)
    ensures MarkerHonest(platform, after)
  {
    match event
    case Edit => SameKeepsHonest(platform, before, after);
    case Project(launch, started, r) =>
      if after != before {
        ConcludedIsHonest(launch.JobOn(before), before, started, after, r);
      }
  }

  ghost predicate Run(platform: Platform, states: seq<Files>, events: seq<Event>)
  {
    && |states| == |events| + 1
    && forall i :: 0 <= i < |events| ==> Step(platform, states[i], states[i + 1], events[i])
  }

  ghost predicate BelievableRun(states: seq<Files>, events: seq<Event>)
    requires |states| == |events| + 1
  {
    forall i :: 0 <= i < |events| && events[i].Project? ==>
      Believable(events[i].launch.JobOn(states[i]), states[i], events[i].started, states[i + 1], events[i].r)
  }

  /** The marker is honest throughout every believable run that starts from an honest state or without a marker. */
  lemma {:induction false} RunKeepsHonest(platform: Platform, states: seq<Files>, events: seq<Event>, n: nat)
    requires SoundPlatform(platform) && Run(platform, states, events) && BelievableRun(states, events) && n <= |events|
    requires MarkerFile !in states[0] || MarkerHonest(platform, states[0])
    ensures MarkerHonest(platform, states[n])
  {
    if n > 0 {
      RunKeepsHonest(platform, states, events, n - 1);
      StepKeepsHonest(platform, states[n - 1], states[n], events[n - 1]);
    }
  }

  /** In every run whatsoever a file that is not managed keeps its bytes as long as no edit changes it. */
  lemma {:induction false} RunKeepsForeign(platform: Platform, states: seq<Files>, events: seq<Event>, n: nat, target: string)
    requires SoundPlatform(platform) && Run(platform, states, events) && n <= |events|
    requires Instance(target) in states[0] && !Managed(platform, states[0], target)
    requires forall i :: 0 <= i < n && events[i].Edit? ==> SameAt(states[i], states[i + 1], Instance(target))
    ensures SameAt(states[0], states[n], Instance(target)) && !Managed(platform, states[n], target)
  {
    if n > 0 {
      RunKeepsForeign(platform, states, events, n - 1, target);
      StepKeepsForeign(platform, states[n - 1], states[n], events[n - 1], target);
    }
  }
}
