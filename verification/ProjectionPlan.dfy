/** Which files a projection moves, and what a validated projection may rely on. */
module ProjectionPlan {
  import opened Wrappers
  import opened Ordering
  import opened ContentModel
  import opened Journal
  import opened Markers

  const MAX_PROJECTED_ITEMS := 4096 + 8192
  const MAX_MARKER_BYTES := 64 * 1024 * 1024

  datatype LockedItem = LockedItem(contentId: string, kind: Kind, enabled: bool, target: string, sha256: string, size: nat)

  datatype LockedOverride = LockedOverride(pack: string, target: string, sha256: string, size: nat)

  datatype ContentLock = ContentLock(sha256: string, items: seq<LockedItem>, overrides: seq<LockedOverride>)

  /**
   * What the projection borrows: the portable collision key of a target, the hash, the marker's
   * document format, the validation of content locks, the syntax checks of items, hashes and
   * identifiers, and whether a target has a path below the instance or a revision.
   */
  datatype Platform = Platform(
    key: string -> string,
    sha256: Bytes -> string,
    text: TextCodec,
    encode: Marker -> Bytes,
    decode: Bytes -> Option<Marker>,
    wellFormed: ProjectedItem -> bool,
    validHash: string -> bool,
    validIdentifier: string -> bool,
    validLock: ContentLock -> bool,
    instancePath: (string, string) -> bool,
    revisionPath: (string, string, string) -> bool)

  ghost predicate SoundPlatform(platform: Platform)
  {
    forall m :: platform.decode(platform.encode(m)) == Some(m) && platform.encode(m) != []
  }

  predicate FileMatches(platform: Platform, bytes: Bytes, item: ProjectedItem)
  {
    |bytes| == item.size && platform.sha256(bytes) == item.sha256
  }

  predicate DistinctKeys(platform: Platform, items: seq<ProjectedItem>)
  {
    forall i, j :: 0 <= i < j < |items| ==> platform.key(items[i].target) != platform.key(items[j].target)
  }

  /** The items by collision key. */
  function KeyMap(platform: Platform, items: seq<ProjectedItem>): map<string, ProjectedItem>
  {
    if items == [] then map[]
    else
      var last := items[|items| - 1];
      KeyMap(platform, items[..|items| - 1])[platform.key(last.target) := last]
  }

  /** The map holds these items under their own keys. */
  ghost predicate Keyed(platform: Platform, items: seq<ProjectedItem>, byKey: map<string, ProjectedItem>)
  {
    && (forall k :: k in byKey ==> byKey[k] in items && platform.key(byKey[k].target) == k)
    && (forall x :: x in items ==> platform.key(x.target) in byKey)
  }

  lemma KeyedNext(platform: Platform, items: seq<ProjectedItem>, byKey: map<string, ProjectedItem>, last: ProjectedItem)
    requires Keyed(platform, items, byKey)
    ensures Keyed(platform, items + [last], byKey[platform.key(last.target) := last])
  {
  }

  lemma {:induction false} KeyMapKeyed(platform: Platform, items: seq<ProjectedItem>)
    ensures Keyed(platform, items, KeyMap(platform, items))
  {
    if items != [] {
      var n := |items| - 1;
      KeyMapKeyed(platform, items[..n]);
      KeyedNext(platform, items[..n], KeyMap(platform, items[..n]), items[n]);
      assert items == items[..n] + [items[n]];
    }
  }

  lemma OneOfAKey(platform: Platform, items: seq<ProjectedItem>, x: ProjectedItem, y: ProjectedItem)
    requires DistinctKeys(platform, items) && x in items && y in items && platform.key(x.target) == platform.key(y.target)
    ensures x == y
  {
    var i :| 0 <= i < |items| && items[i] == x;
    var j :| 0 <= j < |items| && items[j] == y;
  }

  lemma KeyMapMeaning(platform: Platform, items: seq<ProjectedItem>)
    ensures forall k :: k in KeyMap(platform, items) ==>
              KeyMap(platform, items)[k] in items && platform.key(KeyMap(platform, items)[k].target) == k
    ensures forall x :: x in items ==> platform.key(x.target) in KeyMap(platform, items)
    ensures DistinctKeys(platform, items) ==>
              forall x :: x in items ==> KeyMap(platform, items)[platform.key(x.target)] == x
  {
    KeyMapKeyed(platform, items);
    if DistinctKeys(platform, items) {
      forall x | x in items
        ensures KeyMap(platform, items)[platform.key(x.target)] == x
      {
        OneOfAKey(platform, items, KeyMap(platform, items)[platform.key(x.target)], x);
      }
    }
  }

  function KeyOrder(platform: Platform): (ProjectedItem, ProjectedItem) -> bool
  {
    (x: ProjectedItem, y: ProjectedItem) => AtMost(platform.key(x.target), platform.key(y.target))
  }

  predicate SameArtifact(previous: ProjectedItem, desired: ProjectedItem)
  {
    && previous.isOverride == desired.isOverride
    && previous.target == desired.target
    && previous.sha256 == desired.sha256
    && previous.size == desired.size
  }

  /** An override is a seed: one that is there, or was seeded before, is left to its owner. */
  predicate PreserveSeed(previous: Option<ProjectedItem>, desired: ProjectedItem, exists_: bool)
  {
    desired.isOverride
    && ((exists_ && (previous.None? || previous.value.isOverride))
        || (previous.Some? && previous.value.isOverride && previous.value.target == desired.target))
  }

  predicate Occupied(env: Env, files: Files, path: Path)
  {
    path in files || path in env.directories
  }

  /** One projection: the files' surroundings, the transaction directory, and both item lists. */
  datatype Job = Job(platform: Platform, env: Env, tx: string, previous: seq<ProjectedItem>, desired: Marker)
  {
    function Previous(item: ProjectedItem): Option<ProjectedItem>
    {
      var k, m := platform.key(item.target), KeyMap(platform, previous);
      if k in m then Some(m[k]) else None
    }

    function Desired(item: ProjectedItem): Option<ProjectedItem>
    {
      var k, m := platform.key(item.target), KeyMap(platform, desired.items);
      if k in m then Some(m[k]) else None
    }

    predicate Unchanged(old_: ProjectedItem)
    {
      Desired(old_).Some? && SameArtifact(old_, Desired(old_).value)
    }

    /** Managed by the previous projection and to be moved out of the way. */
    predicate Replaced(old_: ProjectedItem)
    {
      !old_.isOverride && !Unchanged(old_)
    }

    /** Already in place, or a seed to leave alone. */
    predicate Skipped(item: ProjectedItem, files: Files)
    {
      || (Previous(item).Some? && SameArtifact(Previous(item).value, item))
      || PreserveSeed(Previous(item), item, Occupied(env, files, Instance(item.target)))
    }

    function Source(item: ProjectedItem): Path
    {
      Revision(desired.revision, item.target)
    }
  }

  // ----- The plan ---------------------------------------------------------------------------------------

  function BackupMoves(job: Job, items: seq<ProjectedItem>, index: nat): seq<Move>
  {
    if items == [] then []
    else if job.Replaced(items[0])
    then [Move(Instance(items[0].target), Backup(job.tx, index))] + BackupMoves(job, items[1..], index + 1)
    else BackupMoves(job, items[1..], index + 1)
  }

  function MarkerBackup(job: Job, files: Files): seq<Move>
  {
    if MarkerFile in files then [Move(MarkerFile, BackupMarker(job.tx))] else []
  }

  function PositionOf(items: seq<ProjectedItem>, item: ProjectedItem): (r: nat)
    requires item in items
    ensures r < |items| && items[r] == item
  {
    if items[0] == item then 0 else 1 + PositionOf(items[1..], item)
  }

  function ActivationMove(job: Job, item: ProjectedItem): Move
    requires item in job.desired.items
  {
    Move(Staged(job.tx, PositionOf(job.desired.items, item)), Instance(item.target))
  }

  function ActivationMoves(job: Job, files: Files, items: seq<ProjectedItem>): seq<Move>
    requires forall x :: x in items ==> x in job.desired.items
  {
    if items == [] then []
    else if job.Skipped(items[0], files) then ActivationMoves(job, files, items[1..])
    else [ActivationMove(job, items[0])] + ActivationMoves(job, files, items[1..])
  }

  function CommitMove(job: Job): Move
  {
    Move(StagedMarker(job.tx), MarkerFile)
  }

  function Shifts(moves: seq<Move>): seq<Step>
  {
    if moves == [] then [] else [Shift(moves[0])] + Shifts(moves[1..])
  }

  /** Each activation is followed by a checkpoint. */
  function CheckedShifts(moves: seq<Move>): seq<Step>
  {
    if moves == [] then [] else [Shift(moves[0]), Checkpoint] + CheckedShifts(moves[1..])
  }

  function PreviousInOrder(job: Job): (r: seq<ProjectedItem>)
    ensures multiset(r) == multiset(job.previous)
  {
    SortBy(job.previous, KeyOrder(job.platform))
  }

  function DesiredInOrder(job: Job): (r: seq<ProjectedItem>)
    ensures forall x :: x in r <==> x in job.desired.items
  {
    SameElements(SortBy(job.desired.items, KeyOrder(job.platform)), job.desired.items);
    SortBy(job.desired.items, KeyOrder(job.platform))
  }

  function Backups(job: Job, files: Files): seq<Move>
  {
    BackupMoves(job, PreviousInOrder(job), 0) + MarkerBackup(job, files)
  }

  function AllMoves(job: Job, files: Files): seq<Move>
  {
    Backups(job, files) + (ActivationMoves(job, files, DesiredInOrder(job)) + [CommitMove(job)])
  }

  function Plan(job: Job, files: Files): seq<Step>
  {
    Shifts(Backups(job, files))
    + (CheckedShifts(ActivationMoves(job, files, DesiredInOrder(job))) + [Shift(CommitMove(job))])
  }

  /** The verified copies and the new marker, in the transaction directory. */
  function StagedSlots(job: Job, files: Files): Files
  {
    map i | 0 <= i < |job.desired.items| && !job.Skipped(job.desired.items[i], files)
            && job.Source(job.desired.items[i]) in files ::
      Staged(job.tx, i) := files[job.Source(job.desired.items[i])]
  }

  function AfterStaging(job: Job, files: Files): Files
  {
    (files + StagedSlots(job, files))[StagedMarker(job.tx) := job.platform.encode(job.desired)]
  }

  // ----- What validation establishes --------------------------------------------------------------------------

  ghost predicate Validated(job: Job, files: Files)
  {
    && DistinctKeys(job.platform, job.previous)
    && DistinctKeys(job.platform, job.desired.items)
    && files.Keys !! job.env.directories
    && (forall p :: p in files || p in job.env.directories ==> !Within(p, job.tx))
    && MarkerFile !in job.env.directories
    && (forall y :: y in job.previous && !y.isOverride ==>
         Instance(y.target) in files && FileMatches(job.platform, files[Instance(y.target)], y))
    && (forall x :: x in job.desired.items ==>
         job.Source(x) in files && FileMatches(job.platform, files[job.Source(x)], x))
    && (forall x :: x in job.desired.items ==> Instance(x.target) !in job.env.directories)
    && (forall x :: x in job.desired.items && Instance(x.target) in files ==> MayOverwrite(job, x))
  }

  /** A target that exists is either managed under the same name, or an override's own. */
  predicate MayOverwrite(job: Job, x: ProjectedItem)
  {
    match job.Previous(x)
    case None => x.isOverride
    case Some(y) => if y.isOverride then x.isOverride else y.target == x.target
  }
}
