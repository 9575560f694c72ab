/** What a projection transaction guarantees, for every schedule of failures. */
module ProjectionTheorems {
  import opened Wrappers
  import opened Journal
  import opened Markers
  import opened ProjectionPlan
  import opened ProjectionProofs

  datatype Verdict = Committed | RolledBack | Stuck

  datatype Ending = Ending(world: World, verdict: Verdict)

  function Executed(job: Job, files: Files, clock: nat): Outcome
  {
    Execute(job.env, World(AfterStaging(job, files), clock), Plan(job, files), [])
  }

  /** Undo after a failed plan; the transaction directory goes only if everything was undone. */
  function Recover(job: Job, o: Outcome): Ending
  {
    var (undone, ok) := Rollback(job.env, o.world, o.journal);
    if ok then Ending(RemoveTree(job.env, undone, job.tx).0, RolledBack) else Ending(undone, Stuck)
  }

  /** The transaction once everything is staged: run the plan, then clean up or roll back. */
  function Transact(job: Job, files: Files, clock: nat): Ending
  {
    var o := Executed(job, files, clock);
    if o.status.Completed? then Ending(RemoveTree(job.env, o.world, job.tx).0, Committed) else Recover(job, o)
  }

  // ----- The journal is a prefix of the plan ------------------------------------------------------------

  function MovesOf(steps: seq<Step>): seq<Move>
  {
    if steps == [] then []
    else if steps[0].Shift? then [steps[0].move] + MovesOf(steps[1..])
    else MovesOf(steps[1..])
  }

  lemma {:induction false} MovesOfConcat(a: seq<Step>, b: seq<Step>)
    ensures MovesOf(a + b) == MovesOf(a) + MovesOf(b)
  {
    if a == [] {
      assert a + b == b;
    } else {
      assert (a + b)[1..] == a[1..] + b;
      MovesOfConcat(a[1..], b);
    }
  }

  lemma {:induction false} MovesOfShifts(moves: seq<Move>)
    ensures MovesOf(Shifts(moves)) == moves
  {
    if moves != [] {
      MovesOfShifts(moves[1..]);
      assert Shifts(moves)[1..] == Shifts(moves[1..]);
    }
  }

  lemma {:induction false} MovesOfChecked(moves: seq<Move>)
    ensures MovesOf(CheckedShifts(moves)) == moves
  {
    if moves != [] {
      MovesOfChecked(moves[1..]);
      MovesOfConcat([Shift(moves[0]), Checkpoint], CheckedShifts(moves[1..]));
      assert MovesOf([Shift(moves[0]), Checkpoint]) == [moves[0]] by {
        assert [Shift(moves[0]), Checkpoint][1..] == [Checkpoint];
        assert [Checkpoint][1..] == [];
      }
    }
  }

  lemma MovesOfParts(backups: seq<Move>, activations: seq<Move>, commit: Move)
    ensures MovesOf(Shifts(backups) + (CheckedShifts(activations) + [Shift(commit)])) == backups + (activations + [commit])
  {
    MovesOfConcat(Shifts(backups), CheckedShifts(activations) + [Shift(commit)]);
    MovesOfConcat(CheckedShifts(activations), [Shift(commit)]);
    MovesOfShifts(backups);
    MovesOfChecked(activations);
    assert [Shift(commit)][1..] == [];
  }

  lemma PlanMoves(job: Job, files: Files)
    ensures MovesOf(Plan(job, files)) == AllMoves(job, files)
  {
    MovesOfParts(Backups(job, files), ActivationMoves(job, files, DesiredInOrder(job)), CommitMove(job));
  }

  /** The journal, with the late rename if there is one, is a prefix of the moves. */
  lemma {:induction false} JournalPrefix(env: Env, w: World, steps: seq<Step>, journal: seq<Move>)
    ensures var o := Execute(env, w, steps, journal);
            && o.journal <= journal + MovesOf(steps)
            && (o.status.Completed? ==> o.journal == journal + MovesOf(steps))
            && (o.status.Stopped? && o.status.late.Some? ==>
                 o.journal + [o.status.late.value] <= journal + MovesOf(steps))
    decreases |steps|
  {
    if steps == [] {
      assert journal + MovesOf(steps) == journal;
    } else {
      match steps[0]
      case Checkpoint =>
        JournalPrefix(env, World(w.files, w.clock + 1), steps[1..], journal);
      case Shift(m) =>
        var (next, ok) := Rename(env, w, m);
        assert journal + MovesOf(steps) == (journal + [m]) + MovesOf(steps[1..]);
        if ok {
          JournalPrefix(env, next, steps[1..], journal + [m]);
        }
    }
  }

  lemma PrefixOrderly(moves: seq<Move>, prefix: seq<Move>)
    requires Orderly(moves) && prefix <= moves
    ensures Orderly(prefix)
    ensures forall m :: m in prefix ==> m in moves
  {
  }

  /** Everything known about a plan that was run: its journal explains its files. */
  ghost predicate Ran(job: Job, files: Files, o: Outcome)
  {
    && Validated(job, files)
    && Explains(job.env, AfterStaging(job, files), o)
    && o.journal <= AllMoves(job, files)
    && (o.status.Completed? ==> o.journal == AllMoves(job, files))
    && (o.status.Stopped? && o.status.late.Some? ==> o.journal + [o.status.late.value] <= AllMoves(job, files))
    && Orderly(AllMoves(job, files))
  }

  lemma ExecutedExplained(job: Job, files: Files, clock: nat)
    ensures Explains(job.env, AfterStaging(job, files), Executed(job, files, clock))
  {
    var staged := AfterStaging(job, files);
    ExecuteExplained(job.env, staged, World(staged, clock), Plan(job, files), []);
  }

  lemma NothingBefore(moves: seq<Move>)
    ensures [] + moves == moves
  {
  }

  lemma ExecutedPrefix(job: Job, files: Files, clock: nat)
    ensures var o := Executed(job, files, clock);
            && o.journal <= AllMoves(job, files)
            && (o.status.Completed? ==> o.journal == AllMoves(job, files))
            && (o.status.Stopped? && o.status.late.Some? ==> o.journal + [o.status.late.value] <= AllMoves(job, files))
  {
    JournalPrefix(job.env, World(AfterStaging(job, files), clock), Plan(job, files), []);
    PlanMoves(job, files);
    NothingBefore(AllMoves(job, files));
  }

  lemma ExecutedRan(job: Job, files: Files, clock: nat)
    requires Validated(job, files)
    ensures Ran(job, files, Executed(job, files, clock))
  {
    ExecutedExplained(job, files, clock);
    ExecutedPrefix(job, files, clock);
    MovesOrderly(job, files);
  }

  /** Sources are files, so no source is a directory. */
  lemma SourcesAreFiles(job: Job, files: Files, m: Move)
    requires Validated(job, files) && m in AllMoves(job, files)
    ensures m.source !in job.env.directories
  {
    BackupsReady(job, files);
    ActivationsReady(job, files);
    if m in Backups(job, files) {
      ReadySource(job.env, AfterStaging(job, files), {}, Backups(job, files), m);
    } else {
      ReadySource(job.env, AfterStaging(job, files), Sources(Backups(job, files)), Activations(job, files), m);
    }
    StagedClear(job, files, m.source);
  }

  lemma {:induction false} ReadySource(env: Env, files: Files, left: set<Path>, moves: seq<Move>, m: Move)
    requires AllReady(env, files, left, moves) && m in moves
    ensures m.source in files
    decreases |moves|
  {
    if m != moves[0] {
      ReadySource(env, files, left + {moves[0].source}, moves[1..], m);
    }
  }

  lemma StagedClear(job: Job, files: Files, p: Path)
    requires Validated(job, files) && p in AfterStaging(job, files)
    ensures p !in job.env.directories
    ensures p in files || Within(p, job.tx)
  {
  }

  lemma StagedOutside(job: Job, files: Files)
    requires Validated(job, files)
    ensures OutsideOf(AfterStaging(job, files), job.tx) == files
  {
  }

  // ----- All or nothing ---------------------------------------------------------------------------------

  /** The rename that stopped the plan although it took effect, if that is what happened. */
  function LateMove(o: Outcome): Option<Move>
  {
    match o.status
    case Completed => None
    case Stopped(late) => late
  }

  lemma JournalSources(job: Job, files: Files, o: Outcome)
    requires Ran(job, files, o)
    ensures forall m :: m in o.journal ==> m in AllMoves(job, files) && m.source !in job.env.directories
  {
    forall m | m in o.journal
      ensures m in AllMoves(job, files) && m.source !in job.env.directories
    {
      assert m in AllMoves(job, files);
      SourcesAreFiles(job, files, m);
    }
  }

  lemma Undone(job: Job, files: Files, o: Outcome)
    requires Ran(job, files, o) && o.status == Stopped(None)
    requires Recover(job, o).verdict == RolledBack
    ensures OutsideOf(Recover(job, o).world.files, job.tx) == files
  {
    JournalSources(job, files, o);
    RollbackRestores(job.env, AfterStaging(job, files), o.world, o.journal);
    RemoveTreeOutside(job.env, Rollback(job.env, o.world, o.journal).0, job.tx);
    StagedOutside(job, files);
  }

  lemma MoveKinds(job: Job, files: Files, m: Move)
    requires m in AllMoves(job, files)
    ensures BackupLike(job, m) || ActivationLike(job, m)
    ensures BackupLike(job, m) ==> m in Backups(job, files)
  {
    BackupsShape(job, files);
    ActivationsShape(job, files);
    assert AllMoves(job, files) == Backups(job, files) + Activations(job, files);
  }

  lemma LateIsPlanned(job: Job, files: Files, o: Outcome)
    requires Ran(job, files, o) && LateMove(o).Some?
    ensures LateMove(o).value in AllMoves(job, files)
    ensures Orderly(o.journal + [LateMove(o).value])
  {
    var moves := o.journal + [LateMove(o).value];
    PrefixOrderly(AllMoves(job, files), moves);
    assert LateMove(o).value in moves;
  }

  /** What a late rename leaves behind when everything else has been undone. */
  lemma OnlyLateRemains(job: Job, files: Files, o: Outcome)
    requires Ran(job, files, o) && LateMove(o).Some? && Recover(job, o).verdict == RolledBack
    ensures LateMove(o).value.source in AfterStaging(job, files)
    ensures LateMove(o).value.destination !in AfterStaging(job, files)
    ensures OutsideOf(Recover(job, o).world.files, job.tx)
         == OutsideOf(Moved(AfterStaging(job, files), LateMove(o).value), job.tx)
  {
    LateIsPlanned(job, files, o);
    LateRollback(job.env, AfterStaging(job, files), o.world, o.journal, LateMove(o).value);
    RemoveTreeOutside(job.env, Rollback(job.env, o.world, o.journal).0, job.tx);
  }

  lemma LateBackupRemains(job: Job, files: Files, o: Outcome)
    requires Ran(job, files, o) && LateMove(o).Some? && Recover(job, o).verdict == RolledBack
    requires BackupLike(job, LateMove(o).value)
    ensures LateMove(o).value.source in files
    ensures LateMove(o).value.source !in OutsideOf(Recover(job, o).world.files, job.tx)
  {
    OnlyLateRemains(job, files, o);
    StagedClear(job, files, LateMove(o).value.source);
  }

  lemma LateActivationRemains(job: Job, files: Files, o: Outcome)
    requires Ran(job, files, o) && LateMove(o).Some? && Recover(job, o).verdict == RolledBack
    requires ActivationLike(job, LateMove(o).value)
    ensures LateMove(o).value.destination !in files
    ensures LateMove(o).value.destination in OutsideOf(Recover(job, o).world.files, job.tx)
  {
    OnlyLateRemains(job, files, o);
    assert LateMove(o).value.destination in Moved(AfterStaging(job, files), LateMove(o).value);
  }

  lemma RestoredUnlessLate(job: Job, files: Files, clock: nat)
    requires Validated(job, files) && Transact(job, files, clock).verdict == RolledBack
    ensures OutsideOf(Transact(job, files, clock).world.files, job.tx) == files
       <==> LateMove(Executed(job, files, clock)).None?
  {
    var o := Executed(job, files, clock);
    ExecutedRan(job, files, clock);
    if LateMove(o).None? {
      Undone(job, files, o);
    } else {
      LateIsPlanned(job, files, o);
      MoveKinds(job, files, LateMove(o).value);
      if BackupLike(job, LateMove(o).value) {
        LateBackupRemains(job, files, o);
      } else {
        LateActivationRemains(job, files, o);
      }
    }
  }

  /** The first of these calls that does not work is a rename, and it fails after its effect. */
  ghost predicate StopsLate(env: Env, clock: nat, steps: seq<Step>, m: Move)
  {
    exists n :: LateAt(env, clock, steps, n, m) && WorksUpTo(env, clock, n)
  }

  predicate LateAt(env: Env, clock: nat, steps: seq<Step>, n: nat, m: Move)
  {
    n < |steps| && steps[n] == Shift(m) && env.schedule(clock + n).Late?
  }

  /** The rename `m` of the plan is that call: a statement about the failures alone. */
  ghost predicate FailsLate(job: Job, files: Files, clock: nat, m: Move)
  {
    StopsLate(job.env, clock, Plan(job, files), m)
  }

  ghost predicate WorksUpTo(env: Env, clock: nat, n: nat)
  {
    forall k :: clock <= k < clock + n ==> env.schedule(k).Works?
  }

  /** On a legal plan the first call that does not work decides how the run ends. */
  lemma {:induction false} FirstFaultDecides(env: Env, w: World, steps: seq<Step>, journal: seq<Move>, n: nat)
    requires Legal(env, w.files, MovesOf(steps)) && n < |steps|
    requires WorksUpTo(env, w.clock, n) && !env.schedule(w.clock + n).Works?
    ensures Execute(env, w, steps, journal).status
         == Stopped(if steps[n].Shift? && env.schedule(w.clock + n).Late? then Some(steps[n].move) else None)
    decreases n
  {
    match steps[0]
    case Checkpoint =>
      if n > 0 {
        FirstFaultDecides(env, World(w.files, w.clock + 1), steps[1..], journal, n - 1);
      }
    case Shift(m) =>
      assert MovesOf(steps)[1..] == MovesOf(steps[1..]);
      if n > 0 {
        FirstFaultDecides(env, Rename(env, w, m).0, steps[1..], journal + [m], n - 1);
      }
  }

  /** The first of the next `n` calls that does not work, or `n`. */
  ghost function FirstFault(env: Env, clock: nat, n: nat): (k: nat)
    ensures k <= n && WorksUpTo(env, clock, k)
    ensures k < n ==> !env.schedule(clock + k).Works?
  {
    if n == 0 then 0
    else
      var before := FirstFault(env, clock, n - 1);
      if before < n - 1 || !env.schedule(clock + (n - 1)).Works? then before else n
  }

  lemma LateIsFirstFault(env: Env, w: World, steps: seq<Step>, k: nat, m: Move)
    requires Legal(env, w.files, MovesOf(steps)) && k <= |steps| && WorksUpTo(env, w.clock, k)
    requires k < |steps| ==> !env.schedule(w.clock + k).Works?
    ensures LateMove(Execute(env, w, steps, [])) == Some(m) <==> LateAt(env, w.clock, steps, k, m)
  {
    if k == |steps| {
      OnlyFaultsStop(env, w, steps, []);
    } else {
      FirstFaultDecides(env, w, steps, [], k);
    }
  }

  lemma StopsLateAt(env: Env, clock: nat, steps: seq<Step>, k: nat, m: Move)
    requires k <= |steps| && WorksUpTo(env, clock, k)
    requires k < |steps| ==> !env.schedule(clock + k).Works?
    ensures StopsLate(env, clock, steps, m) <==> LateAt(env, clock, steps, k, m)
  {
    if n: nat :| LateAt(env, clock, steps, n, m) && WorksUpTo(env, clock, n) {
      FirstFaultUnique(env, clock, |steps|, k, n);
    }
  }

  lemma FirstFaultUnique(env: Env, clock: nat, length: nat, k: nat, n: nat)
    requires WorksUpTo(env, clock, k) && (k < length ==> !env.schedule(clock + k).Works?) && k <= length
    requires WorksUpTo(env, clock, n) && n < length && !env.schedule(clock + n).Works?
    ensures k == n
  {
  }

  lemma PlanLegal(job: Job, files: Files)
    requires Validated(job, files)
    ensures Legal(job.env, AfterStaging(job, files), MovesOf(Plan(job, files)))
  {
    MovesLegal(job, files);
    PlanMoves(job, files);
  }

  lemma StopsLateExactly(env: Env, w: World, steps: seq<Step>, m: Move)
    requires Legal(env, w.files, MovesOf(steps))
    ensures LateMove(Execute(env, w, steps, [])) == Some(m) <==> StopsLate(env, w.clock, steps, m)
  {
    LateIsFirstFault(env, w, steps, FirstFault(env, w.clock, |steps|), m);
    StopsLateAt(env, w.clock, steps, FirstFault(env, w.clock, |steps|), m);
  }

  /** Which rename, if any, was late can be read off the failures alone. */
  lemma LateExactly(job: Job, files: Files, clock: nat, m: Move)
    requires Validated(job, files)
    ensures LateMove(Executed(job, files, clock)) == Some(m) <==> FailsLate(job, files, clock, m)
  {
    PlanLegal(job, files);
    StopsLateExactly(job.env, World(AfterStaging(job, files), clock), Plan(job, files), m);
  }

  /**
   * A projection that failed and reports a complete rollback has left every file outside its
   * directory, the marker included, exactly as it was, unless the call that failed was a rename
   * that had in fact happened: such a rename is never undone, and then something outside has changed.
   */
  lemma AllOrNothing(job: Job, files: Files, clock: nat)
    requires Validated(job, files) && Transact(job, files, clock).verdict == RolledBack
    ensures OutsideOf(Transact(job, files, clock).world.files, job.tx) == files
       <==> !exists m :: FailsLate(job, files, clock, m)
  {
    var late := LateMove(Executed(job, files, clock));
    RestoredUnlessLate(job, files, clock);
    if late.Some? {
      LateExactly(job, files, clock, late.value);
    }
    if m :| FailsLate(job, files, clock, m) {
      LateExactly(job, files, clock, m);
    }
  }

  /** A late rename onto a place that held a file blocks the backup that was made from there. */
  lemma LateOverFileSticks(job: Job, files: Files, clock: nat)
    requires Validated(job, files) && LateMove(Executed(job, files, clock)).Some?
    requires LateMove(Executed(job, files, clock)).value.destination in files
    ensures Transact(job, files, clock).verdict == Stuck
  {
    var o := Executed(job, files, clock);
    ExecutedRan(job, files, clock);
    if Recover(job, o).verdict == RolledBack {
      OnlyLateRemains(job, files, o);
    }
  }

  lemma NoJournalSource(job: Job, files: Files, o: Outcome)
    requires Ran(job, files, o) && LateMove(o).Some? && LateMove(o).value.destination !in files
    ensures forall m :: m in o.journal ==> m.source != LateMove(o).value.destination
  {
    var late := LateMove(o).value;
    LateIsPlanned(job, files, o);
    MoveKinds(job, files, late);
    PrefixOrderly(AllMoves(job, files), o.journal);
    forall m | m in o.journal
      ensures m.source != late.destination
    {
      var k :| 0 <= k < |o.journal| && o.journal[k] == m;
      ReplayDelivers(job.env, AfterStaging(job, files), o.journal, k);
    }
  }

  /**
   * If no call fails once the plan has stopped, the rollback is complete exactly when no rename was
   * late, or the late one went to a place that held no file before.
   */
  lemma RollbackSucceeds(job: Job, files: Files, clock: nat)
    requires Validated(job, files) && Executed(job, files, clock).status.Stopped?
    requires NoFaultFrom(job.env, Executed(job, files, clock).world.clock)
    ensures Transact(job, files, clock).verdict == RolledBack
       <==> var late := LateMove(Executed(job, files, clock)); late.None? || late.value.destination !in files
  {
    var o := Executed(job, files, clock);
    ExecutedRan(job, files, clock);
    JournalSources(job, files, o);
    if LateMove(o).Some? {
      LateIsPlanned(job, files, o);
      if LateMove(o).value.destination in files {
        LateOverFileSticks(job, files, clock);
      } else {
        NoJournalSource(job, files, o);
      }
    }
    RollbackReports(job.env, AfterStaging(job, files), o);
  }

  /** Nothing but a failing call stops the plan: no rename meets an occupied or missing place. */
  lemma {:induction false} OnlyFaultsStop(env: Env, w: World, steps: seq<Step>, journal: seq<Move>)
    requires Legal(env, w.files, MovesOf(steps))
    requires forall k :: w.clock <= k < w.clock + |steps| ==> env.schedule(k).Works?
    ensures Execute(env, w, steps, journal).status.Completed?
    decreases |steps|
  {
    if steps != [] {
      match steps[0]
      case Checkpoint =>
        OnlyFaultsStop(env, World(w.files, w.clock + 1), steps[1..], journal);
      case Shift(m) =>
        assert MovesOf(steps)[1..] == MovesOf(steps[1..]);
        OnlyFaultsStop(env, Rename(env, w, m).0, steps[1..], journal + [m]);
    }
  }

  lemma CommitsWithoutFaults(job: Job, files: Files, clock: nat)
    requires Validated(job, files)
    requires forall k :: clock <= k < clock + |Plan(job, files)| ==> job.env.schedule(k).Works?
    ensures Transact(job, files, clock).verdict == Committed
    ensures Executed(job, files, clock).status.Completed?
  {
    MovesLegal(job, files);
    PlanMoves(job, files);
    OnlyFaultsStop(job.env, World(AfterStaging(job, files), clock), Plan(job, files), []);
  }

  // ----- No bytes lost ------------------------------------------------------------------------------------

  /** The file is where it was, or in the slot it was backed up to. */
  ghost predicate Survives(job: Job, files: Files, end: Files, p: Path)
  {
    p in files
    && ((p in end && end[p] == files[p])
        || exists m :: m in Backups(job, files) && m.source == p && m.destination in end && end[m.destination] == files[p])
  }

  lemma {:induction false} LegalAvoids(env: Env, files: Files, moves: seq<Move>, p: Path)
    requires Legal(env, files, moves) && p in files
    requires forall m :: m in moves ==> m.source != p
    ensures forall m :: m in moves ==> !Touches(m, p)
    decreases |moves|
  {
    if moves != [] {
      assert moves[0] in moves;
      LegalAvoids(env, Moved(files, moves[0]), moves[1..], p);
    }
  }

  lemma UnmovedSurvives(job: Job, files: Files, o: Outcome, p: Path)
    requires Ran(job, files, o) && o.status.Stopped? && p in files
    requires forall m :: m in o.journal ==> m.source != p
    requires LateMove(o).Some? ==> LateMove(o).value.source != p
    ensures var end := Rollback(job.env, o.world, o.journal).0.files;
            p in end && end[p] == files[p]
  {
    var staged := AfterStaging(job, files);
    assert p in staged && staged[p] == files[p];
    LegalAvoids(job.env, staged, o.journal, p);
    UnmovedStays(job.env, staged, o, p);
    RollbackUntouched(job.env, o.world, o.journal, p);
  }

  lemma UnmovedStays(env: Env, staged: Files, o: Outcome, p: Path)
    requires Explains(env, staged, o) && o.status.Stopped? && p in staged
    requires forall m :: m in o.journal ==> !Touches(m, p)
    requires LateMove(o).Some? ==> LateMove(o).value.source != p
    ensures p in o.world.files && o.world.files[p] == staged[p]
  {
    ReplayUntouched(env, staged, o.journal, p);
  }

  lemma SlotsAreNoSources(job: Job, files: Files, m: Move, n: Move)
    requires m in AllMoves(job, files) && n in AllMoves(job, files) && BackupLike(job, m)
    ensures n.source != m.destination
    ensures ActivationLike(job, n) ==> n.destination != m.destination
  {
    MoveKinds(job, files, n);
  }

  lemma StaysDespiteLate(env: Env, staged: Files, o: Outcome, p: Path)
    requires Explains(env, staged, o) && o.status.Stopped? && p in Replay(env, staged, o.journal)
    requires LateMove(o).Some? ==> LateMove(o).value.source != p && LateMove(o).value.destination != p
    ensures p in o.world.files && o.world.files[p] == Replay(env, staged, o.journal)[p]
  {
  }

  lemma DeliveredDespiteLate(job: Job, files: Files, o: Outcome, k: nat)
    requires Ran(job, files, o) && o.status.Stopped? && k < |o.journal|
    ensures o.journal[k].source in AfterStaging(job, files)
    ensures o.journal[k].destination in o.world.files
    ensures o.world.files[o.journal[k].destination] == AfterStaging(job, files)[o.journal[k].source]
  {
    PrefixOrderly(AllMoves(job, files), o.journal);
    ReplayDelivers(job.env, AfterStaging(job, files), o.journal, k);
    if LateMove(o).Some? {
      LateIsPlanned(job, files, o);
      LastIsApart(o.journal, LateMove(o).value, k);
    }
    StaysDespiteLate(job.env, AfterStaging(job, files), o, o.journal[k].destination);
  }

  lemma LastIsApart(journal: seq<Move>, last: Move, k: nat)
    requires Orderly(journal + [last]) && k < |journal|
    ensures Apart(journal[k], last)
  {
    assert (journal + [last])[k] == journal[k] && (journal + [last])[|journal|] == last;
  }

  lemma MovedSurvives(job: Job, files: Files, o: Outcome, k: nat)
    requires Ran(job, files, o) && o.status.Stopped? && k < |o.journal| && BackupLike(job, o.journal[k])
    requires o.journal[k].source in files
    ensures Survives(job, files, Rollback(job.env, o.world, o.journal).0.files, o.journal[k].source)
  {
    var m := o.journal[k];
    DeliveredDespiteLate(job, files, o, k);
    PrefixOrderly(AllMoves(job, files), o.journal);
    assert m in o.journal;
    forall n | n in o.journal
      ensures n.source != m.destination
    {
      SlotsAreNoSources(job, files, m, n);
    }
    MovedFileSurvives(job.env, o.world, o.journal, k, AfterStaging(job, files)[m.source]);
    MoveKinds(job, files, m);
    assert AfterStaging(job, files)[m.source] == files[m.source];
  }

  /** What a late backup moved is in its slot, and no rollback takes it away. */
  lemma LateSlotStays(job: Job, files: Files, o: Outcome)
    requires Ran(job, files, o) && LateMove(o).Some? && BackupLike(job, LateMove(o).value)
    ensures var late, end := LateMove(o).value, Rollback(job.env, o.world, o.journal).0.files;
            late.source in files && late.destination in end && end[late.destination] == files[late.source]
  {
    var late, staged := LateMove(o).value, AfterStaging(job, files);
    LateIsPlanned(job, files, o);
    forall m | m in o.journal
      ensures !Touches(m, late.destination) && !Touches(m, late.source)
    {
      var k :| 0 <= k < |o.journal| && o.journal[k] == m;
      LastIsApart(o.journal, late, k);
      SlotsAreNoSources(job, files, late, m);
      NoEarlierFill(job, files, m, late);
    }
    LateLands(job.env, staged, o, late);
    SourceIsOld(job, files, late);
    RollbackUntouched(job.env, o.world, o.journal, late.destination);
  }

  lemma NoEarlierFill(job: Job, files: Files, m: Move, late: Move)
    requires m in AllMoves(job, files) && BackupLike(job, late) && Apart(m, late)
    ensures m.destination != late.source
  {
  }

  lemma LateLands(env: Env, staged: Files, o: Outcome, late: Move)
    requires Explains(env, staged, o) && LateMove(o) == Some(late)
    requires forall m :: m in o.journal ==> !Touches(m, late.source)
    ensures late.source in staged && late.destination in o.world.files
    ensures o.world.files[late.destination] == staged[late.source]
  {
    ReplayUntouched(env, staged, o.journal, late.source);
  }

  lemma SourceIsOld(job: Job, files: Files, late: Move)
    requires Validated(job, files) && BackupLike(job, late) && late.source in AfterStaging(job, files)
    ensures late.source in files && AfterStaging(job, files)[late.source] == files[late.source]
  {
  }

  /** Before any cleanup every file is at its place or in its slot. */
  lemma FileSurvivesRollback(job: Job, files: Files, o: Outcome, p: Path)
    requires Ran(job, files, o) && o.status.Stopped? && p in files
    ensures Survives(job, files, Rollback(job.env, o.world, o.journal).0.files, p)
  {
    assert !Within(p, job.tx);
    if k :| 0 <= k < |o.journal| && o.journal[k].source == p {
      assert o.journal[k] in o.journal;
      MoveKinds(job, files, o.journal[k]);
      MovedSurvives(job, files, o, k);
    } else if LateMove(o).Some? && LateMove(o).value.source == p {
      LateIsPlanned(job, files, o);
      MoveKinds(job, files, LateMove(o).value);
      LateSlotStays(job, files, o);
    } else {
      UnmovedSurvives(job, files, o, p);
    }
  }

  /** After a complete rollback everything but a late rename's source is at its place. */
  lemma RestoredSurvives(job: Job, files: Files, o: Outcome, p: Path)
    requires Ran(job, files, o) && o.status.Stopped? && p in files
    requires Recover(job, o).verdict == RolledBack
    requires LateMove(o).Some? ==> LateMove(o).value.source != p
    ensures p in Recover(job, o).world.files && Recover(job, o).world.files[p] == files[p]
  {
    if LateMove(o).None? {
      Undone(job, files, o);
      assert p in OutsideOf(Recover(job, o).world.files, job.tx);
    } else {
      OnlyLateRemains(job, files, o);
      InPlaceOutside(job, files, Recover(job, o).world.files, LateMove(o).value, p);
    }
  }

  lemma InPlaceOutside(job: Job, files: Files, end: Files, late: Move, p: Path)
    requires Validated(job, files) && p in files && late.source != p
    requires late.source in AfterStaging(job, files) && late.destination !in AfterStaging(job, files)
    requires OutsideOf(end, job.tx) == OutsideOf(Moved(AfterStaging(job, files), late), job.tx)
    ensures p in end && end[p] == files[p]
  {
    assert p in AfterStaging(job, files) && p != late.destination;
    assert p in OutsideOf(Moved(AfterStaging(job, files), late), job.tx);
    assert p in OutsideOf(end, job.tx);
  }

  /** A removal that ends like this leaves the file `p` of the directory there. */
  predicate Spares(fault: Fault, p: Path)
  {
    fault.Refuses? || (fault.Late? && p in fault.kept)
  }

  /** A backup happened, was reported as failed, and the cleanup took the slot it went to. */
  ghost predicate SlotRemoved(job: Job, files: Files, clock: nat)
  {
    var o := Executed(job, files, clock);
    && LateMove(o).Some? && BackupLike(job, LateMove(o).value)
    && Transact(job, files, clock).verdict == RolledBack
    && !Spares(job.env.schedule(Rollback(job.env, o.world, o.journal).0.clock), LateMove(o).value.destination)
  }

  lemma RemovalSpares(env: Env, w: World, tx: string, p: Path)
    requires p in w.files && Within(p, tx)
    ensures var end := RemoveTree(env, w, tx).0.files;
            (p in end <==> Spares(env.schedule(w.clock), p)) && (p in end ==> end[p] == w.files[p])
  {
  }

  lemma NoOtherSlot(job: Job, files: Files, late: Move, m: Move)
    requires DistinctKeys(job.platform, job.previous) && late in Backups(job, files) && m in Backups(job, files)
    requires m.source == late.source
    ensures m == late
  {
    BackupsAreOrderly(job, files);
    var moves := Backups(job, files);
    var i :| 0 <= i < |moves| && moves[i] == m;
    var j :| 0 <= j < |moves| && moves[j] == late;
  }

  /** After a complete rollback the file a late backup moved survives exactly in its slot. */
  lemma LateBackupSurvives(job: Job, files: Files, o: Outcome)
    requires Ran(job, files, o) && LateMove(o).Some? && BackupLike(job, LateMove(o).value)
    requires Recover(job, o).verdict == RolledBack
    ensures LateMove(o).value.source in files
    ensures Survives(job, files, Recover(job, o).world.files, LateMove(o).value.source)
       <==> Spares(job.env.schedule(Rollback(job.env, o.world, o.journal).0.clock), LateMove(o).value.destination)
  {
    var late, undone := LateMove(o).value, Rollback(job.env, o.world, o.journal).0;
    LateIsPlanned(job, files, o);
    MoveKinds(job, files, late);
    LateSlotStays(job, files, o);
    LateBackupRemains(job, files, o);
    RemovalSpares(job.env, undone, job.tx, late.destination);
    SlotOrNothing(job, files, Recover(job, o).world.files, late);
  }

  lemma SlotOrNothing(job: Job, files: Files, end: Files, late: Move)
    requires Validated(job, files) && late in Backups(job, files) && late.source in files
    requires late.source !in OutsideOf(end, job.tx)
    requires late.destination in end ==> end[late.destination] == files[late.source]
    ensures Survives(job, files, end, late.source) <==> late.destination in end
  {
    if m :| m in Backups(job, files) && m.source == late.source && m.destination in end {
      NoOtherSlot(job, files, late, m);
    }
  }

  /**
   * Whatever fails, and however the rollback goes, every file there was before a failed projection
   * still has its bytes at its own place or in its backup slot, exactly unless a backup rename had
   * happened although it was reported as failed and the cleanup then removed its slot.
   */
  lemma NoBytesLost(job: Job, files: Files, clock: nat)
    requires Validated(job, files) && Transact(job, files, clock).verdict != Committed
    ensures (forall p :: p in files ==> Survives(job, files, Transact(job, files, clock).world.files, p))
       <==> !SlotRemoved(job, files, clock)
  {
    var o := Executed(job, files, clock);
    ExecutedRan(job, files, clock);
    if Recover(job, o).verdict == RolledBack {
      NoBytesLostInRollback(job, files, o);
    } else {
      forall p | p in files
        ensures Survives(job, files, Rollback(job.env, o.world, o.journal).0.files, p)
      {
        FileSurvivesRollback(job, files, o, p);
      }
    }
  }

  lemma NoBytesLostInRollback(job: Job, files: Files, o: Outcome)
    requires Ran(job, files, o) && o.status.Stopped? && Recover(job, o).verdict == RolledBack
    ensures (forall p :: p in files ==> Survives(job, files, Recover(job, o).world.files, p))
       <==> !(LateMove(o).Some? && BackupLike(job, LateMove(o).value)
              && !Spares(job.env.schedule(Rollback(job.env, o.world, o.journal).0.clock), LateMove(o).value.destination))
  {
    if LateMove(o).Some? && BackupLike(job, LateMove(o).value) {
      LateBackupSurvives(job, files, o);
    }
    forall p | p in files && !(LateMove(o).Some? && LateMove(o).value.source == p)
      ensures Survives(job, files, Recover(job, o).world.files, p)
    {
      RestoredSurvives(job, files, o, p);
    }
    if LateMove(o).Some? {
      LateIsPlanned(job, files, o);
      MoveKinds(job, files, LateMove(o).value);
    }
  }
}
