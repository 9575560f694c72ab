/** Launching the same revision again after a committed launch. */
module ProjectionRepeat {
  import opened Wrappers
  import opened Journal
  import opened Markers
  import opened ProjectionPlan
  import opened ProjectionProofs
  import opened ProjectionTheorems
  import opened ProjectionCommit
  import opened ProjectionValidation
  import opened ProfileTree
  import opened ProjectionRuns

  /** No desired target is the directory another one lies in, as the validation of the lock demands. */
  predicate NoTargetHolds(items: seq<ProjectedItem>)
  {
    forall x, y :: x in items && y in items ==> Parent(x.target) != y.target
  }

  lemma ScanExists(platform: Platform, env: Env, files: Files, directories: set<string>)
    returns (existing: map<string, Existing>)
    requires !Unscannable(platform, env, files, directories)
    ensures Scanned(platform, env, files, directories, existing)
  {
    var names := Standing(env, files, directories);
    existing := RecordAll(platform, files, names);
  }

  lemma RecordAll(platform: Platform, files: Files, names: set<string>) returns (existing: map<string, Existing>)
    requires !KeysCollide(platform, names)
    ensures RecordedNames(platform, files, names, existing)
    decreases names
  {
    if names == {} {
      existing := map[];
    } else {
      var t :| t in names;
      var rest := RecordAll(platform, files, names - {t});
      RecordName(platform, files, names - {t}, rest, t);
      assert names - {t} + {t} == names;
      existing := rest[platform.key(t) := ExistingAt(files, t)];
    }
  }

  /** A committed launch: what was checked, and what is there now. */
  ghost predicate Launched(job: Job, before: Files, existing: map<string, Existing>, after: Files)
  {
    && Validated(job, before) && CommittedFiles(job, before, after)
    && Checked(job, before, existing)
    && !Unscannable(job.platform, job.env, before, Parents(job.previous) + Parents(job.desired.items))
    && NoTargetHolds(job.desired.items)
  }

  predicate Stands(env: Env, files: Files, t: string)
  {
    Instance(t) in files || Instance(t) in env.directories
  }

  /** A name that stands after the launch stood before it, or is that of a desired item. */
  lemma StandsAfter(job: Job, before: Files, existing: map<string, Existing>, after: Files, t: string)
    requires Launched(job, before, existing, after) && Stands(job.env, after, t)
    ensures Stands(job.env, before, t) || (Instance(t) in after && exists x :: x in job.desired.items && x.target == t)
  {
    if Activated(job, before, Instance(t)) {
      var x :| x in job.desired.items && !job.Skipped(x, before) && Instance(t) == Instance(x.target);
      assert x.target == t;
    }
  }

  lemma FileAfter(job: Job, before: Files, after: Files, t: string)
    requires CommittedFiles(job, before, after) && Instance(t) in after
    ensures Instance(t) in before || exists x :: x in job.desired.items && x.target == t
  {
    if Activated(job, before, Instance(t)) {
      var x :| x in job.desired.items && !job.Skipped(x, before) && Instance(t) == Instance(x.target);
      assert x.target == t;
    }
  }

  lemma KnownBefore(job: Job, before: Files, existing: map<string, Existing>, t: string)
    requires Scanned(job.platform, job.env, before, Parents(job.previous) + Parents(job.desired.items), existing)
    requires Stands(job.env, before, t) && Parent(t) in Parents(job.desired.items)
    ensures job.platform.key(t) in existing && existing[job.platform.key(t)] == ExistingAt(before, t)
  {
    assert t in Standing(job.env, before, Parents(job.previous) + Parents(job.desired.items));
  }

  /** A standing name with the key of a desired item has that item's name. */
  lemma SameName(job: Job, before: Files, existing: map<string, Existing>, after: Files, t: string, x: ProjectedItem)
    requires Launched(job, before, existing, after) && x in job.desired.items
    requires Stands(job.env, after, t) && Parent(t) in Parents(job.desired.items)
    requires job.platform.key(t) == job.platform.key(x.target)
    ensures t == x.target && Instance(t) in after
  {
    if Stands(job.env, before, t) {
      KnownBefore(job, before, existing, t);
      assert NoConflict(job.platform, job.previous, existing, x);
    } else {
      StandsAfter(job, before, existing, after, t);
      var y :| y in job.desired.items && y.target == t;
      DesiredFound(job, x);
      DesiredFound(job, y);
    }
  }

  lemma NoDirectoryIsFile(job: Job, before: Files, existing: map<string, Existing>, after: Files, d: string)
    requires Launched(job, before, existing, after) && d in Parents(job.desired.items)
    ensures Instance(d) !in after
  {
    var y :| y in job.desired.items && Parent(y.target) == d;
    if Instance(d) in after {
      FileAfter(job, before, after, d);
      if x :| x in job.desired.items && x.target == d {
        HoldsNone(job.desired.items, x, y);
      }
    }
  }

  lemma HoldsNone(items: seq<ProjectedItem>, x: ProjectedItem, y: ProjectedItem)
    requires NoTargetHolds(items) && x in items && y in items
    ensures Parent(y.target) != x.target
  {
  }

  lemma StandingMeans(env: Env, files: Files, directories: set<string>, t: string)
    ensures t in Standing(env, files, directories) <==> Stands(env, files, t) && Parent(t) in directories
  {
    if Stands(env, files, t) && Parent(t) in directories {
      assert Instance(t) in files.Keys + env.directories;
    }
  }

  lemma NamesApart(job: Job, before: Files, existing: map<string, Existing>, after: Files, s: string, t: string)
    requires Launched(job, before, existing, after)
    requires Stands(job.env, after, s) && Parent(s) in Parents(job.desired.items)
    requires Stands(job.env, after, t) && Parent(t) in Parents(job.desired.items)
    requires job.platform.key(s) == job.platform.key(t)
    ensures s == t
  {
    if Stands(job.env, before, s) && Stands(job.env, before, t) {
      KnownBefore(job, before, existing, s);
      KnownBefore(job, before, existing, t);
    } else if !Stands(job.env, before, s) {
      StandsAfter(job, before, existing, after, s);
      var x :| x in job.desired.items && x.target == s;
      SameName(job, before, existing, after, t, x);
    } else {
      StandsAfter(job, before, existing, after, t);
      var x :| x in job.desired.items && x.target == t;
      SameName(job, before, existing, after, s, x);
    }
  }

  lemma ScannableAfter(job: Job, before: Files, existing: map<string, Existing>, after: Files)
    requires Launched(job, before, existing, after)
    ensures !Unscannable(job.platform, job.env, after, Parents(job.desired.items))
  {
    var directories := Parents(job.desired.items);
    forall d | d in directories
      ensures Instance(d) !in after
    {
      NoDirectoryIsFile(job, before, existing, after, d);
    }
    forall s, t | s in Standing(job.env, after, directories) && t in Standing(job.env, after, directories)
                  && job.platform.key(s) == job.platform.key(t)
      ensures s == t
    {
      StandingMeans(job.env, after, directories, s);
      StandingMeans(job.env, after, directories, t);
      NamesApart(job, before, existing, after, s, t);
    }
  }

  /** What a scan after the launch finds under a desired item's key: the item's own file, or nothing. */
  lemma FoundAfter(job: Job, before: Files, existing: map<string, Existing>, after: Files,
                   found: map<string, Existing>, x: ProjectedItem)
    requires Launched(job, before, existing, after) && x in job.desired.items
    requires Scanned(job.platform, job.env, after, Parents(job.desired.items), found)
    ensures job.platform.key(x.target) in found ==> found[job.platform.key(x.target)] == Existing(x.target, true)
    ensures Instance(x.target) in after ==> job.platform.key(x.target) in found
  {
    var k, directories := job.platform.key(x.target), Parents(job.desired.items);
    if k in found {
      var t :| t in Standing(job.env, after, directories) && job.platform.key(t) == k && found[k] == ExistingAt(after, t);
      StandingMeans(job.env, after, directories, t);
      SameName(job, before, existing, after, t, x);
    }
    if Instance(x.target) in after {
      StandingMeans(job.env, after, directories, x.target);
    }
  }

  lemma RevisionKept(job: Job, before: Files, after: Files, x: ProjectedItem)
    requires Validated(job, before) && CommittedFiles(job, before, after) && x in job.desired.items
    ensures VerifiedFile(job.platform, after, job.Source(x), x)
  {
    assert !MovedAway(job, job.Source(x)) && !Activated(job, before, job.Source(x));
  }

  /** The second launch: the same items wanted, and listed by the marker. */
  function Again(job: Job, env: Env, tx: string): Job
  {
    Job(job.platform, env, tx, job.desired.items, job.desired)
  }

  lemma CheckedAgain(job: Job, before: Files, existing: map<string, Existing>, after: Files, env: Env, tx: string,
                     found: map<string, Existing>)
    requires Launched(job, before, existing, after) && env.directories == job.env.directories
    requires Scanned(job.platform, env, after, Parents(job.desired.items) + Parents(job.desired.items), found)
    ensures Checked(Again(job, env, tx), after, found)
  {
    var again := Again(job, env, tx);
    SameScan(job, env, after, found);
    forall x | x in job.desired.items
      ensures PreviousHolds(job.platform, after, found, x) && NoConflict(job.platform, again.previous, found, x)
      ensures VerifiedFile(job.platform, after, again.Source(x), x)
    {
      FoundAfter(job, before, existing, after, found, x);
      RevisionKept(job, before, after, x);
      KeyMapMeaning(job.platform, job.desired.items);
      if !x.isOverride {
        ManagedPresent(job, before, after, x);
      }
    }
  }

  lemma SameScan(job: Job, env: Env, files: Files, found: map<string, Existing>)
    requires env.directories == job.env.directories
    requires Scanned(job.platform, env, files, Parents(job.desired.items) + Parents(job.desired.items), found)
    ensures Scanned(job.platform, job.env, files, Parents(job.desired.items), found)
  {
    var directories := Parents(job.desired.items);
    assert directories + directories == directories;
    assert Standing(env, files, directories) == Standing(job.env, files, directories);
  }

  lemma PassAgain(job: Job, before: Files, existing: map<string, Existing>, after: Files, env: Env, tx: string)
    requires Launched(job, before, existing, after) && env.directories == job.env.directories
    requires !DirectoryTaken(env, after, tx) && MarkerFits(job)
    ensures ChecksPass(Again(job, env, tx), after)
  {
    var directories := Parents(job.desired.items);
    assert directories + directories == directories;
    assert Standing(env, after, directories) == Standing(job.env, after, directories);
    ScannableAfter(job, before, existing, after);
    forall found | Scanned(job.platform, env, after, directories + directories, found)
      ensures Checked(Again(job, env, tx), after, found)
    {
      CheckedAgain(job, before, existing, after, env, tx, found);
    }
  }

  /** The checks pass again, and the marker on disk is the desired one. */
  lemma AgainPasses(job: Job, before: Files, started: nat, after: Files, env: Env, tx: string)
    requires ChecksPass(job, before) && NoTargetHolds(job.desired.items)
    requires Concluded(job, before, started, after, Success(()))
    requires env.directories == job.env.directories && !DirectoryTaken(env, after, tx)
    ensures ChecksPass(Again(job, env, tx), after)
    ensures MarkerFile in after && after[MarkerFile] == job.platform.encode(job.desired)
  {
    var existing := ScanExists(job.platform, job.env, before, Parents(job.previous) + Parents(job.desired.items));
    CommitIsExact(job, before, started);
    PassAgain(job, before, existing, after, env, tx);
  }

  /** Committing what is there already leaves every file outside the directory as it was. */
  lemma RepeatIsQuiet(job: Job, files: Files, started: nat, end: Files)
    requires job.previous == job.desired.items && Concluded(job, files, started, end, Success(()))
    requires MarkerFile in files && files[MarkerFile] == job.platform.encode(job.desired)
    ensures OutsideOf(end, job.tx) == files
  {
    CommitIsExact(job, files, started);
    StableUpToMarker(job, files, end);
  }

  /** The next launch of the same revision, with other failures and a fresh directory. */
  ghost predicate SameLaunch(first: Launch, second: Launch)
  {
    && second.platform == first.platform && second.profile == first.profile && second.revision == first.revision
    && second.lock == first.lock && second.env.directories == first.env.directories
  }

  lemma MarkerAgain(launch: Launch, after: Files)
    requires SoundPlatform(launch.platform) && |launch.platform.encode(launch.Marker())| <= MAX_MARKER_BYTES
    requires Buildable(launch.platform, launch.profile, launch.revision, launch.lock)
    requires MarkerFile in after && after[MarkerFile] == launch.platform.encode(launch.Marker())
    ensures MarkerAcceptable(launch.platform, launch.env, after, launch.profile)
    ensures CurrentItems(launch.platform, after) == launch.Marker().items
  {
    assert launch.platform.decode(launch.platform.encode(launch.Marker())) == Some(launch.Marker());
    assert launch.platform.encode(launch.Marker()) != [];
  }

  lemma SecondJob(first: Launch, second: Launch, before: Files, after: Files)
    requires SameLaunch(first, second) && CurrentItems(second.platform, after) == second.Marker().items
    ensures second.JobOn(after) == Again(first.JobOn(before), second.env, second.tx)
  {
  }

  /**
   * After a committed launch the same launch is acceptable again, and once it commits it has
   * changed nothing outside its directory.
   */
  lemma LaunchAgain(first: Launch, second: Launch, before: Files, started: nat, after: Files)
    requires SoundPlatform(first.platform) && SameLaunch(first, second)
    requires Acceptable(first, before) && !NothingToDo(first, before) && NoTargetHolds(first.Marker().items)
    requires Concluded(first.JobOn(before), before, started, after, Success(()))
    requires !DirectoryTaken(second.env, after, second.tx)
    ensures Acceptable(second, after)
    ensures forall clock, end :: Concluded(second.JobOn(after), after, clock, end, Success(())) ==>
              OutsideOf(end, second.tx) == after
  {
    AgainPasses(first.JobOn(before), before, started, after, second.env, second.tx);
    MarkerAgain(second, after);
    SecondJob(first, second, before, after);
    forall clock, end | Concluded(second.JobOn(after), after, clock, end, Success(()))
      ensures OutsideOf(end, second.tx) == after
    {
      RepeatIsQuiet(second.JobOn(after), after, clock, end);
    }
  }
}
