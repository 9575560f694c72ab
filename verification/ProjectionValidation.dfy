/** Everything that is checked before a projection touches the instance. */
module ProjectionValidation {
  import opened Wrappers
  import opened Ordering
  import opened ContentModel
  import opened Journal
  import opened Markers
  import opened ProjectionPlan
  import opened ProjectionProofs

  datatype ProjectionError =
    | IdentifierInvalid
    | LockInvalid
    | PathRefused
    | MarkerInvalid
    | MarkerHashMismatch
    | DirectoryInvalid
    | ExistingPathCollision
    | ManagedFileMissing
    | ManagedPathAmbiguous
    | ManagedFileMismatch
    | OverrideTargetInvalid
    | ForeignTargetConflict(target: string)
    | SourceMismatch
    | TransactionCollision
    | MarkerTooLarge
    | CallFailed
    | CleanupFailed(primary: ProjectionError)
    | RollbackFailed(primary: ProjectionError, undone: bool)

  // ----- Markers --------------------------------------------------------------------------------------

  predicate ItemValid(platform: Platform, item: ProjectedItem)
  {
    && platform.wellFormed(item)
    && (if item.isOverride then item.kind == Modpack else item.kind != Modpack && item.size != 0)
    && platform.validHash(item.sha256)
  }

  predicate StrictlySorted(items: seq<ProjectedItem>)
  {
    forall i :: 0 < i < |items| ==> Below(items[i - 1].target, items[i].target)
  }

  predicate FormatValid(marker: Marker, profile: string)
  {
    && marker.format == PROJECTION_FORMAT && marker.version == PROJECTION_FORMAT_VERSION
    && marker.profile == profile && |marker.items| <= MAX_PROJECTED_ITEMS
  }

  predicate NamesValid(platform: Platform, marker: Marker)
  {
    platform.validIdentifier(marker.profile) && platform.validIdentifier(marker.revision)
  }

  predicate HashesValid(platform: Platform, marker: Marker)
  {
    && (marker.lockSha256.Some? ==> platform.validHash(marker.lockSha256.value))
    && platform.validHash(marker.stateSha256)
  }

  predicate HeaderValid(platform: Platform, marker: Marker, profile: string)
  {
    FormatValid(marker, profile) && NamesValid(platform, marker) && HashesValid(platform, marker)
  }

  predicate ItemsValid(platform: Platform, items: seq<ProjectedItem>)
  {
    && (forall x :: x in items ==> ItemValid(platform, x))
    && StrictlySorted(items)
    && DistinctKeys(platform, items)
  }

  predicate Sealed(platform: Platform, marker: Marker)
  {
    platform.sha256(Stream(platform.text, marker)) == marker.stateSha256
  }

  predicate ValidMarker(platform: Platform, marker: Marker, profile: string)
  {
    HeaderValid(platform, marker, profile) && ItemsValid(platform, marker.items) && Sealed(platform, marker)
  }

  /** One pass over the items, remembering the last target and the keys seen. */
  method ValidateItems(platform: Platform, items: seq<ProjectedItem>) returns (ok: bool)
    ensures ok <==> ItemsValid(platform, items)
  {
    var keys: set<string> := {};
    for i := 0 to |items|
      invariant forall x :: x in items[..i] ==> ItemValid(platform, x)
      invariant StrictlySorted(items[..i]) && DistinctKeys(platform, items[..i])
      invariant keys == set x | x in items[..i] :: platform.key(x.target)
    {
      var x := items[i];
      assert items[..i + 1] == items[..i] + [x];
      assert x in items;
      if !ItemValid(platform, x) {
        return false;
      }
      if i > 0 && !Below(items[i - 1].target, x.target) {
        return false;
      }
      if platform.key(x.target) in keys {
        ghost var y :| y in items[..i] && platform.key(y.target) == platform.key(x.target);
        ghost var j :| 0 <= j < i && items[j] == y;
        return false;
      }
      keys := keys + {platform.key(x.target)};
      forall j | 0 <= j < i
        ensures platform.key(items[j].target) != platform.key(x.target)
      {
        assert items[j] in items[..i];
      }
    }
    assert items[..|items|] == items;
    return true;
  }

  method ValidateMarker(platform: Platform, marker: Marker, profile: string) returns (r: Result<(), ProjectionError>)
    ensures r.Success? <==> ValidMarker(platform, marker, profile)
    ensures r == Failure(MarkerHashMismatch) <==>
            HeaderValid(platform, marker, profile) && ItemsValid(platform, marker.items) && !Sealed(platform, marker)
    ensures r == Failure(IdentifierInvalid) <==> FormatValid(marker, profile) && !NamesValid(platform, marker)
    ensures r.Failure? ==> r.error == MarkerInvalid || r.error == MarkerHashMismatch || r.error == IdentifierInvalid
  {
    if !FormatValid(marker, profile) {
      return Failure(MarkerInvalid);
    }
    if !NamesValid(platform, marker) {
      return Failure(IdentifierInvalid);
    }
    if !HashesValid(platform, marker) {
      return Failure(MarkerInvalid);
    }
    var itemsOk := ValidateItems(platform, marker.items);
    if !itemsOk {
      return Failure(MarkerInvalid);
    }
    var digest := MarkerStateSha256(platform.text, platform.sha256, marker);
    if digest != marker.stateSha256 {
      return Failure(MarkerHashMismatch);
    }
    return Success(());
  }

  // ----- The desired marker -----------------------------------------------------------------------------

  function Launched(item: LockedItem): ProjectedItem
  {
    ProjectedItem(item.contentId, item.kind, false, item.target, item.sha256, item.size)
  }

  function Seeded(o: LockedOverride): ProjectedItem
  {
    ProjectedItem(o.pack, Modpack, true, o.target, o.sha256, o.size)
  }

  function EnabledPacks(lock: ContentLock): set<string>
  {
    set item | item in lock.items && item.kind == Modpack && item.enabled :: item.contentId
  }

  function LaunchedItems(items: seq<LockedItem>): seq<ProjectedItem>
  {
    if items == [] then []
    else if items[0].enabled && items[0].kind != Modpack then [Launched(items[0])] + LaunchedItems(items[1..])
    else LaunchedItems(items[1..])
  }

  function SeededItems(overrides: seq<LockedOverride>, packs: set<string>): seq<ProjectedItem>
  {
    if overrides == [] then []
    else if overrides[0].pack in packs then [Seeded(overrides[0])] + SeededItems(overrides[1..], packs)
    else SeededItems(overrides[1..], packs)
  }

  function TargetOrder(x: ProjectedItem, y: ProjectedItem): bool
  {
    AtMost(x.target, y.target)
  }

  /** Enabled content that is no pack, and the overrides of enabled packs, by target. */
  function DesiredItems(lock: Option<ContentLock>): seq<ProjectedItem>
  {
    match lock
    case None => []
    case Some(l) => SortBy(LaunchedItems(l.items) + SeededItems(l.overrides, EnabledPacks(l)), TargetOrder)
  }

  function DesiredMarker(platform: Platform, profile: string, revision: string, lock: Option<ContentLock>): Marker
  {
    var unsealed := Marker(PROJECTION_FORMAT, PROJECTION_FORMAT_VERSION, profile, revision,
                           match lock { case None => None case Some(l) => Some(l.sha256) }, DesiredItems(lock), "");
    unsealed.(stateSha256 := platform.sha256(Stream(platform.text, unsealed)))
  }

  lemma {:induction false} LaunchedMeaning(items: seq<LockedItem>, x: ProjectedItem)
    ensures x in LaunchedItems(items) <==>
            exists item :: item in items && item.enabled && item.kind != Modpack && x == Launched(item)
  {
    if items != [] {
      LaunchedMeaning(items[1..], x);
      assert items == [items[0]] + items[1..];
    }
  }

  lemma {:induction false} SeededMeaning(overrides: seq<LockedOverride>, packs: set<string>, x: ProjectedItem)
    ensures x in SeededItems(overrides, packs) <==> exists o :: o in overrides && o.pack in packs && x == Seeded(o)
  {
    if overrides != [] {
      SeededMeaning(overrides[1..], packs, x);
      assert overrides == [overrides[0]] + overrides[1..];
    }
  }

  /**
   * What is projected: exactly the enabled content that is no modpack, and exactly the overrides
   * whose pack is itself enabled.
   */
  lemma DesiredMeaning(lock: ContentLock, x: ProjectedItem)
    ensures x in DesiredItems(Some(lock)) <==>
            || (exists item :: item in lock.items && item.enabled && item.kind != Modpack && x == Launched(item))
            || (exists o :: o in lock.overrides && x == Seeded(o)
                  && exists pack :: pack in lock.items && pack.kind == Modpack && pack.enabled && pack.contentId == o.pack)
  {
    var all := LaunchedItems(lock.items) + SeededItems(lock.overrides, EnabledPacks(lock));
    SameElements(SortBy(all, TargetOrder), all);
    LaunchedMeaning(lock.items, x);
    SeededMeaning(lock.overrides, EnabledPacks(lock), x);
    assert x in all <==> x in LaunchedItems(lock.items) || x in SeededItems(lock.overrides, EnabledPacks(lock));
  }

  /** Every target has a path below the instance. */
  predicate InstancePaths(platform: Platform, profile: string, items: seq<ProjectedItem>)
  {
    forall x :: x in items ==> platform.instancePath(profile, x.target)
  }

  /** Every target has a path below the revision. */
  predicate RevisionPaths(platform: Platform, profile: string, revision: string, items: seq<ProjectedItem>)
  {
    forall x :: x in items ==> platform.revisionPath(profile, revision, x.target)
  }

  /** What is demanded of a lock before it can be projected. */
  predicate Buildable(platform: Platform, profile: string, revision: string, lock: Option<ContentLock>)
  {
    && (lock.Some? ==> platform.validLock(lock.value))
    && ValidMarker(platform, DesiredMarker(platform, profile, revision, lock), profile)
    && RevisionPaths(platform, profile, revision, DesiredItems(lock))
    && InstancePaths(platform, profile, DesiredItems(lock))
  }

  /**
   * Validates the lock, seals the marker, and forms all paths. Keys of whole paths differ because
   * the keys of the targets do.
   */
  method BuildDesired(platform: Platform, profile: string, revision: string, lock: Option<ContentLock>)
    returns (r: Result<Marker, ProjectionError>)
    ensures r.Success? <==> Buildable(platform, profile, revision, lock)
    ensures r.Success? ==> r.value == DesiredMarker(platform, profile, revision, lock)
    ensures r == Failure(LockInvalid) <==> lock.Some? && !platform.validLock(lock.value)
    ensures r == Failure(PathRefused) ==> ValidMarker(platform, DesiredMarker(platform, profile, revision, lock), profile)
  {
    if lock.Some? && !platform.validLock(lock.value) {
      return Failure(LockInvalid);
    }
    var items := [];
    if lock.Some? {
      var packs := EnabledPacks(lock.value);
      items := SortBy(LaunchedItems(lock.value.items) + SeededItems(lock.value.overrides, packs), TargetOrder);
    }
    var marker := Marker(PROJECTION_FORMAT, PROJECTION_FORMAT_VERSION, profile, revision,
                         if lock.Some? then Some(lock.value.sha256) else None, items, "");
    var digest := MarkerStateSha256(platform.text, platform.sha256, marker);
    marker := marker.(stateSha256 := digest);
    var valid := ValidateMarker(platform, marker, profile);
    if valid.Failure? {
      return Failure(valid.error);
    }
    if !RevisionPaths(platform, profile, revision, items) || !InstancePaths(platform, profile, items) {
      return Failure(PathRefused);
    }
    return Success(marker);
  }

  // ----- The previous marker ------------------------------------------------------------------------------

  predicate MarkerReadable(platform: Platform, bytes: Bytes, profile: string)
  {
    && 0 < |bytes| <= MAX_MARKER_BYTES
    && platform.decode(bytes).Some? && ValidMarker(platform, platform.decode(bytes).value, profile)
    && InstancePaths(platform, profile, platform.decode(bytes).value.items)
  }

  predicate MarkerAcceptable(platform: Platform, env: Env, files: Files, profile: string)
  {
    Occupied(env, files, MarkerFile) ==> MarkerFile in files && MarkerReadable(platform, files[MarkerFile], profile)
  }

  /** The marker on disk: none, or one that passes every check; anything else is an error. */
  method ReadPreviousMarker(platform: Platform, env: Env, files: Files, profile: string)
    returns (r: Result<Option<Marker>, ProjectionError>)
    ensures r == Success(None) <==> !Occupied(env, files, MarkerFile)
    ensures r.Success? && r.value.Some? ==>
              MarkerFile in files && MarkerReadable(platform, files[MarkerFile], profile)
              && r.value == platform.decode(files[MarkerFile])
    ensures r.Failure? <==> !MarkerAcceptable(platform, env, files, profile)
  {
    if !Occupied(env, files, MarkerFile) {
      return Success(None);
    }
    if MarkerFile !in files || files[MarkerFile] == [] || |files[MarkerFile]| > MAX_MARKER_BYTES {
      return Failure(MarkerInvalid);
    }
    var marker := platform.decode(files[MarkerFile]);
    if marker.None? {
      return Failure(MarkerInvalid);
    }
    var valid := ValidateMarker(platform, marker.value, profile);
    if valid.Failure? {
      return Failure(valid.error);
    }
    if !InstancePaths(platform, profile, marker.value.items) {
      return Failure(PathRefused);
    }
    return Success(marker);
  }

  // ----- What is there already ------------------------------------------------------------------------------

  datatype Existing = Existing(target: string, isFile: bool)

  /** The directory part of a target; the instance root is the empty name. */
  function Parent(target: string): string
  {
    if target == "" then ""
    else if target[|target| - 1] == '/' then target[..|target| - 1]
    else Parent(target[..|target| - 1])
  }

  function Parents(items: seq<ProjectedItem>): set<string>
  {
    set x | x in items :: Parent(x.target)
  }

  /** Names standing in the directories that hold previous or desired targets. */
  function Standing(env: Env, files: Files, directories: set<string>): set<string>
  {
    set p | p in files.Keys + env.directories && p.Instance? && Parent(p.target) in directories :: p.target
  }

  function ExistingAt(files: Files, target: string): Existing
  {
    Existing(target, Instance(target) in files)
  }

  /** Every standing name is recorded under its key, and nothing else is. */
  ghost predicate Scanned(platform: Platform, env: Env, files: Files, directories: set<string>,
                          existing: map<string, Existing>)
  {
    && (forall t :: t in Standing(env, files, directories) ==>
         platform.key(t) in existing && existing[platform.key(t)] == ExistingAt(files, t))
    && (forall k :: k in existing ==>
         exists t :: t in Standing(env, files, directories) && platform.key(t) == k && existing[k] == ExistingAt(files, t))
  }

  ghost predicate KeysCollide(platform: Platform, names: set<string>)
  {
    exists s, t :: s in names && t in names && s != t && platform.key(s) == platform.key(t)
  }

  /** A directory to scan is a file, or two standing names have the same key. */
  ghost predicate Unscannable(platform: Platform, env: Env, files: Files, directories: set<string>)
  {
    || (exists d :: d in directories && Instance(d) in files)
    || KeysCollide(platform, Standing(env, files, directories))
  }

  lemma ScannedMeansScannable(platform: Platform, env: Env, files: Files, directories: set<string>,
                              existing: map<string, Existing>)
    requires Scanned(platform, env, files, directories, existing)
    ensures !KeysCollide(platform, Standing(env, files, directories))
  {
  }

  /** The names recorded so far, under their keys. */
  ghost predicate RecordedNames(platform: Platform, files: Files, names: set<string>, existing: map<string, Existing>)
  {
    && (forall t :: t in names ==> platform.key(t) in existing && existing[platform.key(t)] == ExistingAt(files, t))
    && (forall k :: k in existing ==>
         exists t :: t in names && platform.key(t) == k && existing[k] == ExistingAt(files, t))
  }

  /** Adds the entries of one directory, name by name. */
  method ScanDirectory(platform: Platform, files: Files, existing: map<string, Existing>, names: set<string>,
                       ghost done: set<string>)
    returns (r: Option<map<string, Existing>>)
    requires RecordedNames(platform, files, done, existing) && done !! names
    ensures r.Some? ==> RecordedNames(platform, files, done + names, r.value)
    ensures r.None? ==> KeysCollide(platform, done + names)
  {
    var next, todo := existing, names;
    while todo != {}
      invariant todo <= names && RecordedNames(platform, files, done + (names - todo), next)
      decreases todo
    {
      var t :| t in todo;
      var k := platform.key(t);
      if k in next {
        ghost var s :| s in done + (names - todo) && platform.key(s) == k;
        return None;
      }
      RecordName(platform, files, done + (names - todo), next, t);
      assert done + (names - todo) + {t} == done + (names - (todo - {t}));
      next := next[k := ExistingAt(files, t)];
      todo := todo - {t};
    }
    assert names - {} == names;
    return Some(next);
  }

  lemma RecordName(platform: Platform, files: Files, names: set<string>, existing: map<string, Existing>, t: string)
    requires RecordedNames(platform, files, names, existing) && platform.key(t) !in existing
    ensures RecordedNames(platform, files, names + {t}, existing[platform.key(t) := ExistingAt(files, t)])
  {
  }

  /** Directory by directory: what is no directory, or collides with a name seen before, is an error. */
  method Scan(platform: Platform, env: Env, files: Files, directories: set<string>)
    returns (r: Result<map<string, Existing>, ProjectionError>)
    ensures r.Success? <==> !Unscannable(platform, env, files, directories)
    ensures r.Success? ==> Scanned(platform, env, files, directories, r.value)
    ensures r == Failure(DirectoryInvalid) ==> exists d :: d in directories && Instance(d) in files
    ensures r == Failure(ExistingPathCollision) ==> KeysCollide(platform, Standing(env, files, directories))
    ensures r.Failure? ==> r.error == DirectoryInvalid || r.error == ExistingPathCollision
  {
    var existing: map<string, Existing> := map[];
    var todo := directories;
    assert Standing(env, files, directories - todo) == {};
    while todo != {}
      invariant todo <= directories
      invariant RecordedNames(platform, files, Standing(env, files, directories - todo), existing)
      invariant forall d :: d in directories && d !in todo ==> Instance(d) !in files
      decreases todo
    {
      var d :| d in todo;
      StandingSplits(env, files, directories - todo, d);
      if Instance(d) in files {
        return Failure(DirectoryInvalid);
      }
      var next := ScanDirectory(platform, files, existing, Standing(env, files, {d}), Standing(env, files, directories - todo));
      if next.None? {
        StandingGrows(env, files, directories - todo + {d}, directories);
        return Failure(ExistingPathCollision);
      }
      assert directories - todo + {d} == directories - (todo - {d});
      existing := next.value;
      todo := todo - {d};
    }
    assert directories - {} == directories;
    ScannedMeansScannable(platform, env, files, directories, existing);
    return Success(existing);
  }

  lemma StandingSplits(env: Env, files: Files, done: set<string>, d: string)
    requires d !in done
    ensures Standing(env, files, done) !! Standing(env, files, {d})
    ensures Standing(env, files, done) + Standing(env, files, {d}) == Standing(env, files, done + {d})
  {
  }

  lemma StandingGrows(env: Env, files: Files, some: set<string>, all: set<string>)
    requires some <= all
    ensures Standing(env, files, some) <= Standing(env, files, all)
  {
  }

  // ----- The previous projection ----------------------------------------------------------------------------

  function FindExisting(platform: Platform, existing: map<string, Existing>, x: ProjectedItem): Option<Existing>
  {
    var k := platform.key(x.target);
    if k in existing then Some(existing[k]) else None
  }

  predicate VerifiedFile(platform: Platform, files: Files, path: Path, item: ProjectedItem)
  {
    path in files && FileMatches(platform, files[path], item)
  }

  /** A managed file is there under its own name, unaltered; an override may be gone, but not misnamed. */
  predicate PreviousHolds(platform: Platform, files: Files, existing: map<string, Existing>, y: ProjectedItem)
  {
    match FindExisting(platform, existing, y)
    case None => y.isOverride
    case Some(e) =>
      && e.target == y.target
      && (if y.isOverride then e.isFile else VerifiedFile(platform, files, Instance(y.target), y))
  }

  function PreviousFault(platform: Platform, files: Files, existing: map<string, Existing>, y: ProjectedItem)
    : ProjectionError
    requires !PreviousHolds(platform, files, existing, y)
  {
    match FindExisting(platform, existing, y)
    case None => ManagedFileMissing
    case Some(e) =>
      if e.target != y.target then ManagedPathAmbiguous
      else if y.isOverride then OverrideTargetInvalid
      else ManagedFileMismatch
  }

  /** The first previous item that does not hold decides the error. */
  method ValidatePrevious(platform: Platform, files: Files, existing: map<string, Existing>, items: seq<ProjectedItem>)
    returns (r: Result<(), ProjectionError>)
    ensures r.Success? <==> forall y :: y in items ==> PreviousHolds(platform, files, existing, y)
    ensures r.Failure? ==>
              exists i :: 0 <= i < |items| && !PreviousHolds(platform, files, existing, items[i])
                          && (forall j :: 0 <= j < i ==> PreviousHolds(platform, files, existing, items[j]))
                          && r.error == PreviousFault(platform, files, existing, items[i])
  {
    for i := 0 to |items|
      invariant forall j :: 0 <= j < i ==> PreviousHolds(platform, files, existing, items[j])
    {
      var y := items[i];
      var found := FindExisting(platform, existing, y);
      if y.isOverride && found.None? {
        continue;
      }
      if found.None? {
        assert !PreviousHolds(platform, files, existing, y);
        return Failure(ManagedFileMissing);
      }
      if found.value.target != y.target {
        assert !PreviousHolds(platform, files, existing, y);
        return Failure(ManagedPathAmbiguous);
      }
      if y.isOverride {
        if !found.value.isFile {
          assert !PreviousHolds(platform, files, existing, y);
          return Failure(OverrideTargetInvalid);
        }
      } else if !VerifiedFile(platform, files, Instance(y.target), y) {
        assert !PreviousHolds(platform, files, existing, y);
        return Failure(ManagedFileMismatch);
      }
    }
    return Success(());
  }

  // ----- Files that are not the projection's ---------------------------------------------------------------------

  /** A desired target is free, an override's own file, or a managed file of the same name. */
  predicate NoConflict(platform: Platform, previous: seq<ProjectedItem>, existing: map<string, Existing>, x: ProjectedItem)
  {
    var k := platform.key(x.target);
    k in existing ==>
      if x.isOverride then existing[k].target == x.target && existing[k].isFile
      else
        var m := KeyMap(platform, previous);
        k in m && !m[k].isOverride && m[k].target == x.target && existing[k].target == x.target
  }

  method ValidateForeign(platform: Platform, previous: seq<ProjectedItem>, existing: map<string, Existing>,
                         items: seq<ProjectedItem>)
    returns (r: Result<(), ProjectionError>)
    ensures r.Success? <==> forall x :: x in items ==> NoConflict(platform, previous, existing, x)
    ensures r.Failure? ==>
              exists x :: x in items && !NoConflict(platform, previous, existing, x)
                          && r.error == if x.isOverride then OverrideTargetInvalid else ForeignTargetConflict(x.target)
  {
    var previousByKey := KeyMap(platform, previous);
    for i := 0 to |items|
      invariant forall j :: 0 <= j < i ==> NoConflict(platform, previous, existing, items[j])
    {
      var x := items[i];
      var k := platform.key(x.target);
      if k in existing {
        if x.isOverride {
          if existing[k].target != x.target || !existing[k].isFile {
            return Failure(OverrideTargetInvalid);
          }
          continue;
        }
        var managed := k in previousByKey && !previousByKey[k].isOverride
                       && previousByKey[k].target == x.target && existing[k].target == x.target;
        if !managed {
          assert !NoConflict(platform, previous, existing, x);
          return Failure(ForeignTargetConflict(x.target));
        }
      }
    }
    return Success(());
  }

  method VerifySources(platform: Platform, files: Files, desired: Marker) returns (r: Result<(), ProjectionError>)
    ensures r.Success? <==>
            forall x :: x in desired.items ==> VerifiedFile(platform, files, Revision(desired.revision, x.target), x)
    ensures r.Failure? ==> r.error == SourceMismatch
  {
    for i := 0 to |desired.items|
      invariant forall j :: 0 <= j < i ==>
                  VerifiedFile(platform, files, Revision(desired.revision, desired.items[j].target), desired.items[j])
    {
      if !VerifiedFile(platform, files, Revision(desired.revision, desired.items[i].target), desired.items[i]) {
        return Failure(SourceMismatch);
      }
    }
    return Success(());
  }

  // ----- The checks together -----------------------------------------------------------------------------------------

  ghost predicate Checked(job: Job, files: Files, existing: map<string, Existing>)
  {
    && Scanned(job.platform, job.env, files, Parents(job.previous) + Parents(job.desired.items), existing)
    && (forall y :: y in job.previous ==> PreviousHolds(job.platform, files, existing, y))
    && (forall x :: x in job.desired.items ==> NoConflict(job.platform, job.previous, existing, x))
    && (forall x :: x in job.desired.items ==> VerifiedFile(job.platform, files, job.Source(x), x))
  }

  /** The transaction directory is new, and a place is not both a file and a directory. */
  ghost predicate FreshDirectory(job: Job, files: Files)
  {
    && files.Keys !! job.env.directories
    && MarkerFile !in job.env.directories
    && forall p :: p in files || p in job.env.directories ==> !Within(p, job.tx)
  }

  lemma StandingFound(job: Job, files: Files, existing: map<string, Existing>, x: ProjectedItem)
    requires Scanned(job.platform, job.env, files, Parents(job.previous) + Parents(job.desired.items), existing)
    requires x in job.desired.items && (Instance(x.target) in files || Instance(x.target) in job.env.directories)
    ensures FindExisting(job.platform, existing, x) == Some(ExistingAt(files, x.target))
  {
    assert Parent(x.target) in Parents(job.desired.items);
    assert x.target in Standing(job.env, files, Parents(job.previous) + Parents(job.desired.items));
  }

  lemma CheckedItem(job: Job, files: Files, existing: map<string, Existing>, x: ProjectedItem)
    requires Checked(job, files, existing) && FreshDirectory(job, files) && x in job.desired.items
    ensures Instance(x.target) !in job.env.directories
    ensures Instance(x.target) in files ==> MayOverwrite(job, x)
  {
    assert NoConflict(job.platform, job.previous, existing, x);
    if Instance(x.target) in files || Instance(x.target) in job.env.directories {
      StandingFound(job, files, existing, x);
      if job.Previous(x).Some? {
        var y := job.Previous(x).value;
        PreviousMeans(job, x);
        assert PreviousHolds(job.platform, files, existing, y);
      }
    }
  }

  /** The checks give the transaction everything it relies on. */
  lemma ChecksSuffice(job: Job, files: Files, existing: map<string, Existing>)
    requires Checked(job, files, existing) && FreshDirectory(job, files)
    requires DistinctKeys(job.platform, job.previous) && DistinctKeys(job.platform, job.desired.items)
    ensures Validated(job, files)
  {
    forall x | x in job.desired.items
      ensures Instance(x.target) !in job.env.directories
      ensures Instance(x.target) in files ==> MayOverwrite(job, x)
    {
      CheckedItem(job, files, existing, x);
    }
  }
}
