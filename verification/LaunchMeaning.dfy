/**
 * What a launch does, told by the lock, the marker on disk and the files alone: what is wanted,
 * where each file of the instance comes from afterwards, and what the checks demand.
 */
module LaunchMeaning {
  import opened Wrappers
  import opened Ordering
  import opened ContentModel
  import opened Journal
  import opened Markers
  import opened ProjectionPlan
  import opened ProjectionProofs
  import opened ProjectionTheorems
  import opened ProjectionCommit
  import opened ProjectionValidation
  import opened ProfileTree

  // ----- What is wanted -----------------------------------------------------------------------------------

  predicate PackEnabled(lock: ContentLock, pack: string)
  {
    exists item :: item in lock.items && item.contentId == pack && item.kind == Modpack && item.enabled
  }

  /** The item stands for this content. */
  predicate StandsFor(x: ProjectedItem, item: LockedItem)
  {
    && x.target == item.target && x.contentId == item.contentId && x.kind == item.kind
    && x.sha256 == item.sha256 && x.size == item.size && !x.isOverride
  }

  predicate SeedsFrom(x: ProjectedItem, o: LockedOverride)
  {
    && x.target == o.target && x.contentId == o.pack && x.kind == Modpack
    && x.sha256 == o.sha256 && x.size == o.size && x.isOverride
  }

  /** Wanted are exactly the enabled contents that are no pack, and the overrides of enabled packs. */
  lemma WantedItems(lock: ContentLock, x: ProjectedItem)
    ensures x in DesiredItems(Some(lock))
       <==> || (exists item :: item in lock.items && item.enabled && item.kind != Modpack && StandsFor(x, item))
            || (exists o :: o in lock.overrides && PackEnabled(lock, o.pack) && SeedsFrom(x, o))
  {
    DesiredMeaning(lock, x);
    if item :| item in lock.items && item.enabled && item.kind != Modpack && StandsFor(x, item) {
      assert x == Launched(item);
    }
    if o :| o in lock.overrides && PackEnabled(lock, o.pack) && SeedsFrom(x, o) {
      assert x == Seeded(o);
    }
  }

  lemma ItemWanted(lock: ContentLock, item: LockedItem)
    requires item in lock.items && item.enabled && item.kind != Modpack
    ensures exists x :: x in DesiredItems(Some(lock)) && StandsFor(x, item)
  {
    var x := ProjectedItem(item.contentId, item.kind, false, item.target, item.sha256, item.size);
    assert StandsFor(x, item);
    WantedItems(lock, x);
  }

  lemma OverrideWanted(lock: ContentLock, o: LockedOverride)
    requires o in lock.overrides && PackEnabled(lock, o.pack)
    ensures exists x :: x in DesiredItems(Some(lock)) && SeedsFrom(x, o)
  {
    var x := ProjectedItem(o.pack, Modpack, true, o.target, o.sha256, o.size);
    assert SeedsFrom(x, o);
    WantedItems(lock, x);
  }

  /** The marker a launch wants on disk names its format, profile, revision and lock, and is sealed. */
  lemma WantedMarker(launch: Launch)
    ensures launch.Marker().format == "s9lab-content-projection" && launch.Marker().version == 2
    ensures launch.Marker().profile == launch.profile && launch.Marker().revision == launch.revision
    ensures launch.lock.None? ==> launch.Marker().lockSha256 == None && launch.Marker().items == []
    ensures launch.lock.Some? ==>
              launch.Marker().lockSha256 == Some(launch.lock.value.sha256)
              && launch.Marker().items == DesiredItems(launch.lock)
  {
  }

  // ----- Where each file comes from ---------------------------------------------------------------------------

  /** The previous marker manages or has seeded something with the key of `x`. */
  predicate KnownAs(job: Job, x: ProjectedItem, p: ProjectedItem)
  {
    p in job.previous && job.platform.key(p.target) == job.platform.key(x.target)
  }

  lemma PreviousIsKnown(job: Job, x: ProjectedItem, p: ProjectedItem)
    requires DistinctKeys(job.platform, job.previous)
    ensures job.Previous(x) == Some(p) <==> KnownAs(job, x, p)
    ensures job.Previous(x).None? <==> forall q :: q in job.previous ==> !KnownAs(job, x, q)
  {
    KeyMapMeaning(job.platform, job.previous);
  }

  /** A managed item of this very name, hash and size was there before. */
  predicate HadAlready(job: Job, x: ProjectedItem)
  {
    exists p :: p in job.previous && !p.isOverride && p.target == x.target && p.sha256 == x.sha256 && p.size == x.size
  }

  lemma HadIsSkipped(job: Job, files: Files, x: ProjectedItem)
    requires DistinctKeys(job.platform, job.previous) && !x.isOverride
    ensures job.Skipped(x, files) <==> HadAlready(job, x)
  {
    if p :| p in job.previous && !p.isOverride && p.target == x.target && p.sha256 == x.sha256 && p.size == x.size {
      PreviousIsKnown(job, x, p);
    }
    if job.Previous(x).Some? {
      PreviousIsKnown(job, x, job.Previous(x).value);
    }
  }

  /** A wanted managed file is the old one if it was there already, and otherwise the revision's copy. */
  lemma ManagedResult(job: Job, files: Files, end: Files, x: ProjectedItem)
    requires Validated(job, files) && CommittedFiles(job, files, end)
    requires x in job.desired.items && !x.isOverride
    ensures Instance(x.target) in end
    ensures |end[Instance(x.target)]| == x.size && job.platform.sha256(end[Instance(x.target)]) == x.sha256
    ensures HadAlready(job, x) ==>
              Instance(x.target) in files && end[Instance(x.target)] == files[Instance(x.target)]
    ensures !HadAlready(job, x) ==>
              Revision(job.desired.revision, x.target) in files
              && end[Instance(x.target)] == files[Revision(job.desired.revision, x.target)]
  {
    ManagedPresent(job, files, end, x);
    HadIsSkipped(job, files, x);
    if job.Skipped(x, files) {
      SkippedStays(job, files, end, x);
      var p :| p in job.previous && !p.isOverride && p.target == x.target && p.sha256 == x.sha256 && p.size == x.size;
    }
  }

  lemma SkippedStays(job: Job, files: Files, end: Files, x: ProjectedItem)
    requires Validated(job, files) && CommittedFiles(job, files, end)
    requires x in job.desired.items && job.Skipped(x, files)
    ensures Instance(x.target) in end <==> Instance(x.target) in files
    ensures Instance(x.target) in files ==> end[Instance(x.target)] == files[Instance(x.target)]
  {
    DesiredFound(job, x);
    if z :| z in job.desired.items && !job.Skipped(z, files) && Instance(x.target) == Instance(z.target) {
      DesiredFound(job, z);
    }
    if y :| y in job.previous && job.Replaced(y) && Instance(x.target) == Instance(y.target) {
      PreviousFound(job, y);
    }
  }

  /** Seeding this override would overwrite the instance's own file, or bring a deleted seed back. */
  ghost predicate LeftToOwner(job: Job, files: Files, x: ProjectedItem)
  {
    || (exists p :: KnownAs(job, x, p) && p.isOverride && p.target == x.target)
    || (Instance(x.target) in files && forall p :: KnownAs(job, x, p) ==> p.isOverride)
  }

  lemma LeftIsSkipped(job: Job, files: Files, x: ProjectedItem)
    requires DistinctKeys(job.platform, job.previous) && x.isOverride && Instance(x.target) !in job.env.directories
    ensures job.Skipped(x, files) <==> LeftToOwner(job, files, x)
  {
    if job.Previous(x).Some? {
      PreviousIsKnown(job, x, job.Previous(x).value);
      forall q | KnownAs(job, x, q)
        ensures q == job.Previous(x).value
      {
        PreviousIsKnown(job, x, q);
      }
    } else {
      PreviousIsKnown(job, x, x);
    }
  }

  /** A wanted override is seeded from the revision, unless its place is left to its owner. */
  lemma SeedResult(job: Job, files: Files, end: Files, x: ProjectedItem)
    requires Validated(job, files) && CommittedFiles(job, files, end)
    requires x in job.desired.items && x.isOverride
    ensures LeftToOwner(job, files, x) ==>
              && (Instance(x.target) in end <==> Instance(x.target) in files)
              && (Instance(x.target) in files ==> end[Instance(x.target)] == files[Instance(x.target)])
    ensures !LeftToOwner(job, files, x) ==>
              && Instance(x.target) in end && Revision(job.desired.revision, x.target) in files
              && end[Instance(x.target)] == files[Revision(job.desired.revision, x.target)]
  {
    LeftIsSkipped(job, files, x);
    if job.Skipped(x, files) {
      SkippedStays(job, files, end, x);
    }
  }

  /** Everything else keeps its bytes, except that a managed file no longer wanted is gone. */
  lemma OtherResult(job: Job, files: Files, end: Files, target: string)
    requires Validated(job, files) && CommittedFiles(job, files, end)
    requires forall x :: x in job.desired.items ==> x.target != target
    ensures if exists p :: p in job.previous && !p.isOverride && p.target == target then Instance(target) !in end
            else (Instance(target) in end <==> Instance(target) in files)
                 && (Instance(target) in files ==> end[Instance(target)] == files[Instance(target)])
  {
    if p :| p in job.previous && !p.isOverride && p.target == target {
      UnwantedGone(job, files, end, p);
    } else {
      assert !MovedAway(job, Instance(target)) && !Activated(job, files, Instance(target));
    }
  }

  // ----- A launch ---------------------------------------------------------------------------------------------

  /** A successful launch is one with nothing to do, or a committed projection. */
  lemma SuccessIsCommit(launch: Launch, before: Files, started: nat, after: Files)
    requires SoundPlatform(launch.platform) && Projected(launch, before, started, after, Success(()))
    ensures launch.Marker().items == [] || (Validated(launch.JobOn(before), before)
                                            && CommittedFiles(launch.JobOn(before), before, after))
    ensures MarkerFile in after && launch.platform.decode(after[MarkerFile]) == Some(launch.Marker())
  {
    if !(after == before && NothingToDo(launch, before)) {
      CommitIsExact(launch.JobOn(before), before, started);
      assert launch.platform.decode(launch.platform.encode(launch.Marker())) == Some(launch.Marker());
    }
  }

  /**
   * After a successful launch every enabled content of the lock that is no pack is in place, with
   * the lock's size and hash: the file that was managed before if it is the same, and otherwise
   * the revision's.
   */
  lemma LaunchDelivers(launch: Launch, lock: ContentLock, before: Files, started: nat, after: Files, item: LockedItem)
    requires SoundPlatform(launch.platform) && launch.lock == Some(lock)
    requires Projected(launch, before, started, after, Success(()))
    requires item in lock.items && item.enabled && item.kind != Modpack
    ensures Instance(item.target) in after
    ensures |after[Instance(item.target)]| == item.size
    ensures launch.platform.sha256(after[Instance(item.target)]) == item.sha256
    ensures (Instance(item.target) in before && after[Instance(item.target)] == before[Instance(item.target)])
            || (Revision(launch.revision, item.target) in before
                && after[Instance(item.target)] == before[Revision(launch.revision, item.target)])
  {
    SuccessIsCommit(launch, before, started, after);
    ItemWanted(lock, item);
    var x :| x in DesiredItems(Some(lock)) && StandsFor(x, item);
    ManagedResult(launch.JobOn(before), before, after, x);
  }

  /** Every override of an enabled pack has been seeded, or was left to its owner. */
  lemma LaunchSeeds(launch: Launch, lock: ContentLock, before: Files, started: nat, after: Files, o: LockedOverride)
    requires SoundPlatform(launch.platform) && launch.lock == Some(lock)
    requires Projected(launch, before, started, after, Success(()))
    requires o in lock.overrides && PackEnabled(lock, o.pack)
    ensures exists x :: && SeedsFrom(x, o)
                        && if LeftToOwner(launch.JobOn(before), before, x)
                           then (Instance(o.target) in after <==> Instance(o.target) in before)
                                && (Instance(o.target) in before ==> after[Instance(o.target)] == before[Instance(o.target)])
                           else Instance(o.target) in after && Revision(launch.revision, o.target) in before
                                && after[Instance(o.target)] == before[Revision(launch.revision, o.target)]
  {
    SuccessIsCommit(launch, before, started, after);
    OverrideWanted(lock, o);
    var x :| x in DesiredItems(Some(lock)) && SeedsFrom(x, o);
    SeedResult(launch.JobOn(before), before, after, x);
  }

  /** What the marker on disk lists; nothing, if there is none. */
  function MarkedItems(platform: Platform, files: Files): seq<ProjectedItem>
  {
    if MarkerFile !in files then []
    else
      match platform.decode(files[MarkerFile])
      case None => []
      case Some(marker) => marker.items
  }

  /** A place the lock does not want keeps what it has, except that a file managed before is gone. */
  lemma LaunchLeavesOthers(launch: Launch, before: Files, started: nat, after: Files, target: string)
    requires SoundPlatform(launch.platform) && Projected(launch, before, started, after, Success(()))
    requires launch.lock.Some? ==>
               && (forall item :: item in launch.lock.value.items && item.enabled && item.kind != Modpack ==>
                    item.target != target)
               && (forall o :: o in launch.lock.value.overrides && PackEnabled(launch.lock.value, o.pack) ==>
                    o.target != target)
    ensures if exists p :: p in MarkedItems(launch.platform, before) && !p.isOverride && p.target == target
            then Instance(target) !in after
            else (Instance(target) in after <==> Instance(target) in before)
                 && (Instance(target) in before ==> after[Instance(target)] == before[Instance(target)])
  {
    var job := launch.JobOn(before);
    assert job.previous == MarkedItems(launch.platform, before);
    forall x | x in job.desired.items
      ensures x.target != target
    {
      if launch.lock.Some? {
        WantedItems(launch.lock.value, x);
      }
    }
    if !(after == before && NothingToDo(launch, before)) {
      CommitIsExact(job, before, started);
      OtherResult(job, before, after, target);
    }
  }

  /** The marker says so: it names the profile, the revision and the lock of the launch. */
  lemma LaunchMarks(launch: Launch, before: Files, started: nat, after: Files)
    requires SoundPlatform(launch.platform) && Projected(launch, before, started, after, Success(()))
    ensures MarkerFile in after && launch.platform.decode(after[MarkerFile]).Some?
    ensures var m := launch.platform.decode(after[MarkerFile]).value;
            && m.profile == launch.profile && m.revision == launch.revision
            && m.lockSha256 == (if launch.lock.Some? then Some(launch.lock.value.sha256) else None)
  {
    SuccessIsCommit(launch, before, started, after);
    WantedMarker(launch);
  }

  // ----- What the checks demand ---------------------------------------------------------------------------------

  /** The directory part: everything before the last separator, or nothing. */
  lemma {:induction false} ParentMeans(target: string)
    ensures '/' !in target ==> Parent(target) == ""
    ensures '/' in target ==>
              |Parent(target)| < |target| && Parent(target) + "/" <= target && '/' !in target[|Parent(target)| + 1..]
  {
    if target != "" {
      var n := |target| - 1;
      var front := target[..n];
      assert target == front + [target[n]];
      if target[n] == '/' {
        assert target[..n] + "/" == target;
      } else {
        ParentMeans(front);
        if '/' in front {
          assert target[|Parent(front)| + 1..] == front[|Parent(front)| + 1..] + [target[n]];
        }
      }
    }
  }

  /** A file or directory of the instance, in a directory of a managed or wanted item. */
  ghost predicate InTheWay(job: Job, files: Files, t: string)
  {
    && (Instance(t) in files || Instance(t) in job.env.directories)
    && exists z :: (z in job.previous || z in job.desired.items) && Parent(z.target) == Parent(t)
  }

  lemma StandingMeans(job: Job, files: Files, t: string)
    ensures t in Standing(job.env, files, Parents(job.previous) + Parents(job.desired.items)) <==> InTheWay(job, files, t)
  {
    if InTheWay(job, files, t) {
      assert Instance(t) in files.Keys + job.env.directories;
    }
  }

  /** No directory of an item is a file, and no two names in them have one key. */
  lemma ScannableMeans(job: Job, files: Files)
    ensures !Unscannable(job.platform, job.env, files, Parents(job.previous) + Parents(job.desired.items))
       <==> && (forall z :: z in job.previous || z in job.desired.items ==> Instance(Parent(z.target)) !in files)
            && (forall s, t ::
                 InTheWay(job, files, s) && InTheWay(job, files, t) && job.platform.key(s) == job.platform.key(t) ==> s == t)
  {
    var directories := Parents(job.previous) + Parents(job.desired.items);
    forall t
      ensures t in Standing(job.env, files, directories) <==> InTheWay(job, files, t)
    {
      StandingMeans(job, files, t);
    }
    assert forall d :: d in directories <==> exists z :: (z in job.previous || z in job.desired.items) && Parent(z.target) == d;
  }

  /** What stands under the key of this name has this name. */
  ghost predicate OnlyItself(job: Job, files: Files, target: string)
  {
    forall t :: InTheWay(job, files, t) && job.platform.key(t) == job.platform.key(target) ==> t == target
  }

  /** What the scan found under a wanted or managed name, read off the files. */
  lemma FoundMeans(job: Job, files: Files, existing: map<string, Existing>, x: ProjectedItem)
    requires Scanned(job.platform, job.env, files, Parents(job.previous) + Parents(job.desired.items), existing)
    ensures var k := job.platform.key(x.target);
            && (k in existing <==> exists t :: InTheWay(job, files, t) && job.platform.key(t) == k)
            && (k in existing ==>
                 (existing[k].target == x.target <==> OnlyItself(job, files, x.target))
                 && InTheWay(job, files, existing[k].target) && job.platform.key(existing[k].target) == k
                 && (existing[k].isFile <==> Instance(existing[k].target) in files))
  {
    var k := job.platform.key(x.target);
    forall t
      ensures t in Standing(job.env, files, Parents(job.previous) + Parents(job.desired.items)) <==> InTheWay(job, files, t)
    {
      StandingMeans(job, files, t);
    }
  }

  /** A managed file of the marker is in place under its own name, unaltered; a seeded one is gone or a file. */
  ghost predicate PreviousStands(job: Job, files: Files, y: ProjectedItem)
  {
    && OnlyItself(job, files, y.target)
    && (if y.isOverride then Instance(y.target) in job.env.directories ==> Instance(y.target) in files
        else Instance(y.target) in files && |files[Instance(y.target)]| == y.size
             && job.platform.sha256(files[Instance(y.target)]) == y.sha256)
  }

  lemma PreviousMeansStanding(job: Job, files: Files, existing: map<string, Existing>, y: ProjectedItem)
    requires Scanned(job.platform, job.env, files, Parents(job.previous) + Parents(job.desired.items), existing)
    requires y in job.previous
    ensures PreviousHolds(job.platform, files, existing, y) <==> PreviousStands(job, files, y)
  {
    FoundMeans(job, files, existing, y);
    if Instance(y.target) in files || Instance(y.target) in job.env.directories {
      assert InTheWay(job, files, y.target);
    }
  }

  /** What is wrong with a previous item, for each error. */
  lemma PreviousFaultMeans(job: Job, files: Files, existing: map<string, Existing>, y: ProjectedItem)
    requires Scanned(job.platform, job.env, files, Parents(job.previous) + Parents(job.desired.items), existing)
    requires y in job.previous && !PreviousHolds(job.platform, files, existing, y)
    ensures var error := PreviousFault(job.platform, files, existing, y);
            && (error == ManagedFileMissing <==>
                  forall t :: InTheWay(job, files, t) ==> job.platform.key(t) != job.platform.key(y.target))
            && (error == ManagedPathAmbiguous <==> !OnlyItself(job, files, y.target))
            && (error == OverrideTargetInvalid ==> y.isOverride && Instance(y.target) in job.env.directories)
            && (error == ManagedFileMismatch ==> !y.isOverride && InTheWay(job, files, y.target))
            && (error == ManagedFileMissing || error == ManagedPathAmbiguous
                || error == if y.isOverride then OverrideTargetInvalid else ManagedFileMismatch)
  {
    FoundMeans(job, files, existing, y);
  }

  /** A wanted target is free, or a file of its own: any for an override, a managed one otherwise. */
  ghost predicate TargetFree(job: Job, files: Files, x: ProjectedItem)
  {
    && OnlyItself(job, files, x.target)
    && (InTheWay(job, files, x.target) ==>
         if x.isOverride then Instance(x.target) in files
         else exists y :: y in job.previous && !y.isOverride && y.target == x.target)
  }

  lemma NoConflictMeans(job: Job, files: Files, existing: map<string, Existing>, x: ProjectedItem)
    requires Scanned(job.platform, job.env, files, Parents(job.previous) + Parents(job.desired.items), existing)
    requires DistinctKeys(job.platform, job.previous)
    ensures NoConflict(job.platform, job.previous, existing, x) <==> TargetFree(job, files, x)
  {
    FoundMeans(job, files, existing, x);
    KeyMapMeaning(job.platform, job.previous);
  }

  /** The revision has the wanted file, with its size and hash. */
  predicate SourceReady(job: Job, files: Files, x: ProjectedItem)
  {
    var source := Revision(job.desired.revision, x.target);
    source in files && |files[source]| == x.size && job.platform.sha256(files[source]) == x.sha256
  }

  /** All that the checks after the scan demand. */
  lemma ChecksMean(job: Job, files: Files, existing: map<string, Existing>)
    requires Scanned(job.platform, job.env, files, Parents(job.previous) + Parents(job.desired.items), existing)
    requires DistinctKeys(job.platform, job.previous)
    ensures Checked(job, files, existing)
       <==> && (forall y :: y in job.previous ==> PreviousStands(job, files, y))
            && (forall x :: x in job.desired.items ==> TargetFree(job, files, x) && SourceReady(job, files, x))
  {
    forall y | y in job.previous
      ensures PreviousHolds(job.platform, files, existing, y) <==> PreviousStands(job, files, y)
    {
      PreviousMeansStanding(job, files, existing, y);
    }
    forall x | x in job.desired.items
      ensures NoConflict(job.platform, job.previous, existing, x) <==> TargetFree(job, files, x)
      ensures VerifiedFile(job.platform, files, job.Source(x), x) <==> SourceReady(job, files, x)
    {
      NoConflictMeans(job, files, existing, x);
    }
  }

  // ----- What a marker must be ----------------------------------------------------------------------------------

  /** An item a marker may list. */
  predicate Listable(platform: Platform, profile: string, x: ProjectedItem)
  {
    && platform.wellFormed(x) && platform.validHash(x.sha256) && platform.instancePath(profile, x.target)
    && (x.isOverride ==> x.kind == Modpack)
    && (!x.isOverride ==> (x.kind == Mod || x.kind == ShaderPack || x.kind == ResourcePack) && x.size > 0)
  }

  /**
   * A marker is accepted for a profile exactly if it is a document of at most 64 MiB and of this
   * profile, in the current format, with valid names and hashes, at most 12288 items in strictly
   * ascending order, no two of one key, and the right seal.
   */
  lemma ReadableMarker(platform: Platform, bytes: Bytes, profile: string)
    ensures MarkerReadable(platform, bytes, profile)
       <==> && 1 <= |bytes| <= 67108864 && platform.decode(bytes).Some?
            && var m := platform.decode(bytes).value;
               && m.format == "s9lab-content-projection" && m.version == 2 && m.profile == profile
               && platform.validIdentifier(profile) && platform.validIdentifier(m.revision)
               && (m.lockSha256 == None || platform.validHash(m.lockSha256.value))
               && platform.validHash(m.stateSha256)
               && |m.items| <= 12288
               && (forall x :: x in m.items ==> Listable(platform, profile, x))
               && (forall i :: 0 < i < |m.items| ==>
                    AtMost(m.items[i - 1].target, m.items[i].target) && m.items[i - 1].target != m.items[i].target)
               && (forall i, j :: 0 <= i < j < |m.items| ==>
                    platform.key(m.items[i].target) != platform.key(m.items[j].target))
               && platform.sha256(Stream(platform.text, m)) == m.stateSha256
  {
  }

  /** The marker of another profile, or one altered without a new seal, stops every launch unless hashes collide. */
  lemma AlteredMarkerRefused(platform: Platform, bytes: Bytes, altered: Bytes, profile: string)
    requires Lossless(platform.text) && MarkerReadable(platform, bytes, profile) && MarkerReadable(platform, altered, profile)
    requires var m, n := platform.decode(bytes).value, platform.decode(altered).value;
             Fits(platform.text, m) && Fits(platform.text, n) && m.stateSha256 == n.stateSha256 && FieldsOf(m) != FieldsOf(n)
    ensures exists a, b :: a != b && platform.sha256(a) == platform.sha256(b)
  {
    var m, n := platform.decode(bytes).value, platform.decode(altered).value;
    if Stream(platform.text, m) == Stream(platform.text, n) {
      StreamInjective(platform.text, m, n);
    }
    assert platform.sha256(Stream(platform.text, m)) == platform.sha256(Stream(platform.text, n));
  }

  /** The marker a launch goes by is one of its own profile. */
  lemma OwnMarker(launch: Launch, files: Files)
    requires Acceptable(launch, files) && MarkerFile in files
    ensures launch.platform.decode(files[MarkerFile]).Some?
    ensures launch.platform.decode(files[MarkerFile]).value.profile == launch.profile
    ensures launch.platform.validIdentifier(launch.profile) && launch.platform.validIdentifier(launch.revision)
  {
    ReadableMarker(launch.platform, files[MarkerFile], launch.profile);
  }

  /** Returning early needs a marker that is the wanted one and an empty lock. */
  lemma EarlyReturnMeans(launch: Launch, before: Files, r: Result<(), ProjectionError>)
    requires NothingToDo(launch, before)
    ensures launch.lock.Some? ==>
              && (forall item :: item in launch.lock.value.items && item.enabled ==> item.kind == Modpack)
              && (forall o :: o in launch.lock.value.overrides ==> !PackEnabled(launch.lock.value, o.pack))
    ensures MarkerFile in before && launch.platform.decode(before[MarkerFile]) == Some(launch.Marker())
  {
    if launch.lock.Some? {
      var lock := launch.lock.value;
      forall item | item in lock.items && item.enabled
        ensures item.kind == Modpack
      {
        if item.kind != Modpack {
          ItemWanted(lock, item);
        }
      }
      forall o | o in lock.overrides
        ensures !PackEnabled(lock, o.pack)
      {
        if PackEnabled(lock, o.pack) {
          OverrideWanted(lock, o);
        }
      }
    }
  }

  // ----- When a lock can be projected -----------------------------------------------------------------------------

  /** The wanted items ascend by target. */
  lemma WantedAscend(lock: Option<ContentLock>)
    ensures forall i, j :: 0 <= i < j < |DesiredItems(lock)| ==> AtMost(DesiredItems(lock)[i].target, DesiredItems(lock)[j].target)
  {
    if lock.Some? {
      var all := LaunchedItems(lock.value.items) + SeededItems(lock.value.overrides, EnabledPacks(lock.value));
      TargetOrderIsTotal();
      SortByOrders(all, TargetOrder);
      forall i, j | 0 <= i < j < |DesiredItems(lock)|
        ensures AtMost(DesiredItems(lock)[i].target, DesiredItems(lock)[j].target)
      {
        assert TargetOrder(DesiredItems(lock)[i], DesiredItems(lock)[j]);
      }
    }
  }

  lemma TargetOrderIsTotal()
    ensures TotalPreorder(TargetOrder)
  {
    forall x, y
      ensures TargetOrder(x, y) || TargetOrder(y, x)
    {
      AtMostTotal(x.target, y.target);
    }
    forall x, y, z | TargetOrder(x, y) && TargetOrder(y, z)
      ensures TargetOrder(x, z)
    {
      AtMostTransitive(x.target, y.target, z.target);
    }
  }

  /**
   * Whether a lock can be projected depends on its items only one by one, and on their keys being
   * distinct: that the marker is sorted and sealed is never what fails.
   */
  lemma BuildableExactly(platform: Platform, profile: string, revision: string, lock: Option<ContentLock>)
    ensures Buildable(platform, profile, revision, lock)
       <==> && (lock.Some? ==> platform.validLock(lock.value) && platform.validHash(lock.value.sha256))
            && platform.validIdentifier(profile) && platform.validIdentifier(revision)
            && platform.validHash(DesiredMarker(platform, profile, revision, lock).stateSha256)
            && |DesiredItems(lock)| <= 12288
            && (forall x :: x in DesiredItems(lock) ==>
                 Listable(platform, profile, x) && platform.revisionPath(profile, revision, x.target))
            && (forall i, j :: 0 <= i < j < |DesiredItems(lock)| ==>
                 platform.key(DesiredItems(lock)[i].target) != platform.key(DesiredItems(lock)[j].target))
  {
    WantedAscend(lock);
    WantedIsSealed(platform, profile, revision, lock);
    WantedHeader(platform, profile, revision, lock);
    ItemsMean(platform, profile, revision, DesiredItems(lock));
  }

  /** Ascending items are valid exactly if each is admissible and their keys differ. */
  lemma ItemsMean(platform: Platform, profile: string, revision: string, items: seq<ProjectedItem>)
    requires forall i, j :: 0 <= i < j < |items| ==> AtMost(items[i].target, items[j].target)
    ensures ItemsValid(platform, items) && RevisionPaths(platform, profile, revision, items)
            && InstancePaths(platform, profile, items)
       <==> && (forall x :: x in items ==> Listable(platform, profile, x) && platform.revisionPath(profile, revision, x.target))
            && (forall i, j :: 0 <= i < j < |items| ==> platform.key(items[i].target) != platform.key(items[j].target))
  {
    DistinctAscending(platform, items);
  }

  lemma WantedIsSealed(platform: Platform, profile: string, revision: string, lock: Option<ContentLock>)
    ensures Sealed(platform, DesiredMarker(platform, profile, revision, lock))
  {
  }

  lemma WantedHeader(platform: Platform, profile: string, revision: string, lock: Option<ContentLock>)
    ensures HeaderValid(platform, DesiredMarker(platform, profile, revision, lock), profile)
       <==> && (lock.Some? ==> platform.validHash(lock.value.sha256))
            && platform.validIdentifier(profile) && platform.validIdentifier(revision)
            && platform.validHash(DesiredMarker(platform, profile, revision, lock).stateSha256)
            && |DesiredItems(lock)| <= 12288
  {
  }

  lemma DistinctAscending(platform: Platform, items: seq<ProjectedItem>)
    requires forall i, j :: 0 <= i < j < |items| ==> AtMost(items[i].target, items[j].target)
    ensures DistinctKeys(platform, items) ==> StrictlySorted(items)
  {
  }
}
