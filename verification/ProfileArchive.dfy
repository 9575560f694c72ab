/** What an imported profile archive may contain, and the inspection that decides it. */
module ProfileArchive {
  import opened Wrappers
  import opened Journal
  import opened CopyLoop

  const MANIFEST_ENTRY := "profile.json"
  const ARTIFACT_PREFIX := "artifacts/"
  const MAX_PROFILE_ARTIFACTS := 12288

  datatype Limits = Limits(maxEntries: nat, maxManifest: nat, maxArtifact: nat, maxTotal: nat, maxArchive: nat,
                           maxRatio: nat)

  const DEFAULT_LIMITS :=
    Limits(MAX_PROFILE_ARTIFACTS + 1, 8 * 1024 * 1024, 1024 * 1024 * 1024, 8 * 1024 * 1024 * 1024,
           8 * 1024 * 1024 * 1024 + 8 * 1024 * 1024, 100)

  /** Limits the archive code accepts; each fits a machine word, and so does the sum the inspection forms. */
  predicate ValidLimits(limits: Limits)
  {
    && 0 < limits.maxEntries && 0 < limits.maxManifest && 0 < limits.maxArtifact && 0 < limits.maxTotal
    && 0 < limits.maxArchive && 0 < limits.maxRatio && limits.maxArtifact <= limits.maxTotal
  }

  predicate WordLimits(limits: Limits)
  {
    limits.maxTotal + limits.maxManifest <= U64_MAX && limits.maxArchive <= U64_MAX
  }

  datatype Compression = Stored | Deflated | OtherMethod

  /** One entry: what its headers declare, and the bytes reading it delivers. */
  datatype Entry = Entry(name: string, directory: bool, encrypted: bool, comment: bool, extra: bool, mode: Option<nat>,
                         compression: Compression, compressed: nat, size: nat, content: Bytes)

  datatype Archive = Archive(offset: nat, comment: bool, zip64Comment: bool, entries: seq<Entry>)

  datatype ArchiveError =
    | LimitsInvalid
    | DocumentInvalid
    | ArtifactIdentityConflict
    | ArtifactCountInvalid
    | SourceCountMismatch
    | HashInvalid
    | SourceUnexpected
    | SourceSizeMismatch
    | SourceHashMismatch
    | SourceDuplicate
    | ArtifactSizeInvalid
    | SizeOverflowed
    | TotalTooLarge
    | ManifestTooLarge
    | TargetNameMissing
    | TargetExists
    | TemporaryNamesExhausted
    | IoFailed
    | ArchiveSizeInvalid
    | ArchiveInvalid
    | ArchiveMetadataForbidden
    | EntryCountInvalid
    | EncryptedEntry
    | EntryMetadataForbidden
    | SeparatorNoncanonical
    | NameNonAscii
    | DirectoryForbidden
    | PathNoncanonical
    | SymlinkForbidden
    | SpecialEntryForbidden
    | CompressionUnsupported
    | EntryCollision
    | EntryUnsupported
    | EntrySizeInvalid
    | RatioExceeded
    | ManifestMissing
    | ManifestSizeInvalid
    | ManifestInvalid
    | ArtifactSetMismatch
    | ArtifactSizeMismatch
    | ContentSizeMismatch
    | ContentHashMismatch
    | StagingExists
    | ArtifactTooLarge

  /** Which relative names are canonical, and the portable collision key of a name. */
  datatype Naming = Naming(canonical: string -> bool, key: string -> string)

  // ----- Names ------------------------------------------------------------------------------------------

  predicate ValidSha256(value: string)
  {
    |value| == 64 && forall i :: 0 <= i < 64 ==> '0' <= value[i] <= '9' || 'a' <= value[i] <= 'f'
  }

  datatype EntryKind = Manifest | Artifact(sha256: string)

  function ArtifactName(sha256: string): string
  {
    ARTIFACT_PREFIX + sha256
  }

  function Classify(name: string): Result<EntryKind, ArchiveError>
  {
    if name == MANIFEST_ENTRY then Success(Manifest)
    else if !(ARTIFACT_PREFIX <= name) then Failure(EntryUnsupported)
    else if ValidSha256(name[|ARTIFACT_PREFIX|..]) then Success(Artifact(name[|ARTIFACT_PREFIX|..]))
    else Failure(HashInvalid)
  }

  /** A name is classified as the artifact of a hash exactly when it is that hash's artifact name. */
  lemma ClassifyMeaning(name: string, sha256: string)
    ensures Classify(name) == Success(Artifact(sha256)) <==> ValidSha256(sha256) && name == ArtifactName(sha256)
    ensures Classify(name) == Success(Manifest) <==> name == MANIFEST_ENTRY
  {
    if ARTIFACT_PREFIX <= name {
      assert name == ARTIFACT_PREFIX + name[|ARTIFACT_PREFIX|..];
    }
    if ValidSha256(sha256) && name == ArtifactName(sha256) {
      assert name[|ARTIFACT_PREFIX|..] == sha256;
    }
  }

  predicate Ascii(name: string)
  {
    forall i :: 0 <= i < |name| ==> name[i] < 128 as char
  }

  // ----- One entry ------------------------------------------------------------------------------------------

  function PathFault(naming: Naming, e: Entry): Option<ArchiveError>
  {
    if '\\' in e.name then Some(SeparatorNoncanonical)
    else if !Ascii(e.name) then Some(NameNonAscii)
    else if e.directory || (e.name != "" && e.name[|e.name| - 1] == '/') then Some(DirectoryForbidden)
    else if !naming.canonical(e.name) then Some(PathNoncanonical)
    else None
  }

  /** The file-type bits of a Unix mode: absent or regular is fine. */
  function TypeFault(mode: Option<nat>): Option<ArchiveError>
  {
    match mode
    case None => None
    case Some(m) =>
      var fileType := m / 0x1000 % 16;
      if fileType == 0 || fileType == 8 then None
      else if fileType == 10 then Some(SymlinkForbidden)
      else Some(SpecialEntryForbidden)
  }

  /** What is checked before the name is compared with the earlier ones. */
  function HeaderFault(naming: Naming, e: Entry): Option<ArchiveError>
  {
    if e.encrypted then Some(EncryptedEntry)
    else if e.comment || e.extra then Some(EntryMetadataForbidden)
    else if PathFault(naming, e).Some? then PathFault(naming, e)
    else if TypeFault(e.mode).Some? then TypeFault(e.mode)
    else if e.compression == OtherMethod then Some(CompressionUnsupported)
    else None
  }

  function Maximum(limits: Limits, kind: EntryKind): nat
  {
    match kind
    case Manifest => limits.maxManifest
    case Artifact(_) => limits.maxArtifact
  }

  /** A 64-bit product that stops at the largest word. */
  function SaturatingMul(a: nat, b: nat): nat
  {
    if a * b > U64_MAX then U64_MAX else a * b
  }

  function SizeFault(limits: Limits, kind: EntryKind, e: Entry): Option<ArchiveError>
  {
    if e.size > Maximum(limits, kind) then Some(EntrySizeInvalid)
    else if e.size > 0 && (e.compressed == 0 || e.size > SaturatingMul(e.compressed, limits.maxRatio))
    then Some(RatioExceeded)
    else None
  }

  function BodyFault(limits: Limits, e: Entry): Option<ArchiveError>
  {
    match Classify(e.name)
    case Failure(error) => Some(error)
    case Success(kind) => SizeFault(limits, kind, e)
  }

  function SumSizes(entries: seq<Entry>): nat
  {
    if entries == [] then 0 else SumSizes(entries[..|entries| - 1]) + entries[|entries| - 1].size
  }

  predicate Collides(naming: Naming, entries: seq<Entry>, i: nat)
    requires i < |entries|
  {
    exists j :: 0 <= j < i && naming.key(entries[j].name) == naming.key(entries[i].name)
  }

  /** The first thing wrong with the i-th entry, given those before it. */
  function EntryFault(naming: Naming, limits: Limits, entries: seq<Entry>, i: nat): Option<ArchiveError>
    requires i < |entries|
  {
    var total := SumSizes(entries[..i]) + entries[i].size;
    if HeaderFault(naming, entries[i]).Some? then HeaderFault(naming, entries[i])
    else if Collides(naming, entries, i) then Some(EntryCollision)
    else if BodyFault(limits, entries[i]).Some? then BodyFault(limits, entries[i])
    else if total > U64_MAX then Some(SizeOverflowed)
    else if total > limits.maxTotal + limits.maxManifest then Some(TotalTooLarge)
    else None
  }

  // ----- The whole archive ------------------------------------------------------------------------------------

  predicate HasManifest(entries: seq<Entry>)
  {
    exists e :: e in entries && e.name == MANIFEST_ENTRY
  }

  function FrameFault(limits: Limits, archive: Archive): Option<ArchiveError>
  {
    if archive.offset != 0 || archive.comment || archive.zip64Comment then Some(ArchiveMetadataForbidden)
    else if archive.entries == [] || |archive.entries| > limits.maxEntries then Some(EntryCountInvalid)
    else None
  }

  predicate FaultlessUpTo(naming: Naming, limits: Limits, entries: seq<Entry>, n: nat)
    requires n <= |entries|
  {
    forall i :: 0 <= i < n ==> EntryFault(naming, limits, entries, i).None?
  }

  predicate Inspectable(naming: Naming, limits: Limits, archive: Archive)
  {
    && FrameFault(limits, archive).None?
    && FaultlessUpTo(naming, limits, archive.entries, |archive.entries|)
    && HasManifest(archive.entries)
  }

  /** The error an inspection ends with: the frame's, the first faulty entry's, or a missing manifest. */
  ghost predicate IsFault(naming: Naming, limits: Limits, archive: Archive, error: ArchiveError)
  {
    || FrameFault(limits, archive) == Some(error)
    || (FrameFault(limits, archive).None?
        && exists i :: 0 <= i < |archive.entries| && FaultlessUpTo(naming, limits, archive.entries, i)
                       && EntryFault(naming, limits, archive.entries, i) == Some(error))
    || (FrameFault(limits, archive).None? && error == ManifestMissing && !HasManifest(archive.entries)
        && FaultlessUpTo(naming, limits, archive.entries, |archive.entries|))
  }

  datatype Inventoried = Inventoried(kind: EntryKind, size: nat)

  /** The inventory: each accepted entry by name. */
  function Inventory(entries: seq<Entry>): map<string, Inventoried>
  {
    if entries == [] then map[]
    else
      var e, rest := entries[|entries| - 1], Inventory(entries[..|entries| - 1]);
      match Classify(e.name)
      case Success(kind) => rest[e.name := Inventoried(kind, e.size)]
      case Failure(_) => rest
  }

  lemma TakeOne<T>(s: seq<T>, i: nat)
    requires i < |s|
    ensures s[..i + 1] == s[..i] + [s[i]]
    ensures s[..i + 1][..i] == s[..i]
  {
  }

  /** The keys of the first `n` entries. */
  ghost predicate Seen(naming: Naming, entries: seq<Entry>, n: nat, seen: set<string>)
    requires n <= |entries|
  {
    forall k :: k in seen <==> exists j :: 0 <= j < n && naming.key(entries[j].name) == k
  }

  /** Checks one entry after the earlier ones. */
  method InspectEntry(naming: Naming, limits: Limits, entries: seq<Entry>, i: nat, seen: set<string>, total: nat)
    returns (r: Result<EntryKind, ArchiveError>)
    requires i < |entries| && Seen(naming, entries, i, seen) && total == SumSizes(entries[..i])
    ensures r.Success? <==> EntryFault(naming, limits, entries, i).None?
    ensures r.Success? ==> Classify(entries[i].name) == r
    ensures r.Failure? ==> EntryFault(naming, limits, entries, i) == Some(r.error)
  {
    var e := entries[i];
    var header := HeaderFault(naming, e);
    if header.Some? {
      return Failure(header.value);
    }
    if naming.key(e.name) in seen {
      return Failure(EntryCollision);
    }
    var kind := Classify(e.name);
    if kind.Failure? {
      return kind;
    }
    var size := SizeFault(limits, kind.value, e);
    if size.Some? {
      return Failure(size.value);
    }
    if total + e.size > U64_MAX {
      return Failure(SizeOverflowed);
    }
    if total + e.size > limits.maxTotal + limits.maxManifest {
      return Failure(TotalTooLarge);
    }
    return kind;
  }

  /**
   * Inspects every entry. A second manifest cannot be met: it would have the key of the first, so
   * the check for one never decides anything.
   */
  method InspectArchive(naming: Naming, limits: Limits, archive: Archive)
    returns (r: Result<map<string, Inventoried>, ArchiveError>)
    ensures r.Success? <==> Inspectable(naming, limits, archive)
    ensures r.Success? ==> r.value == Inventory(archive.entries)
    ensures r.Failure? ==> IsFault(naming, limits, archive, r.error)
  {
    var frame := FrameFault(limits, archive);
    if frame.Some? {
      return Failure(frame.value);
    }
    var entries := archive.entries;
    var inventory: map<string, Inventoried> := map[];
    var seen: set<string> := {};
    var total: nat := 0;
    var manifest: Option<string> := None;
    for i := 0 to |entries|
      invariant Inspected(naming, limits, entries, i, seen, total, inventory, manifest)
    {
      var e := entries[i];
      var kind := InspectEntry(naming, limits, entries, i, seen, total);
      if kind.Failure? {
        return Failure(kind.error);
      }
      NoSecondManifest(naming, limits, entries, i, kind.value);
      assert kind.value == Manifest ==> manifest.None?;
      InspectedNext(naming, limits, entries, i, seen, total, inventory, manifest, kind.value);
      if kind.value == Manifest {
        manifest := Some(e.name);
      }
      seen := seen + {naming.key(e.name)};
      total := total + e.size;
      inventory := inventory[e.name := Inventoried(kind.value, e.size)];
    }
    assert entries[..|entries|] == entries;
    if manifest.None? {
      return Failure(ManifestMissing);
    }
    return Success(inventory);
  }

  /** What the inspection has gathered after the first `n` entries. */
  ghost predicate Inspected(naming: Naming, limits: Limits, entries: seq<Entry>, n: nat, seen: set<string>, total: nat,
                            inventory: map<string, Inventoried>, manifest: Option<string>)
    requires n <= |entries|
  {
    && FaultlessUpTo(naming, limits, entries, n) && Seen(naming, entries, n, seen)
    && total == SumSizes(entries[..n]) && inventory == Inventory(entries[..n])
    && (manifest.Some? <==> HasManifest(entries[..n]))
  }

  lemma InspectedNext(naming: Naming, limits: Limits, entries: seq<Entry>, i: nat, seen: set<string>, total: nat,
                      inventory: map<string, Inventoried>, manifest: Option<string>, kind: EntryKind)
    requires i < |entries| && Inspected(naming, limits, entries, i, seen, total, inventory, manifest)
    requires EntryFault(naming, limits, entries, i).None? && Classify(entries[i].name) == Success(kind)
    ensures Inspected(naming, limits, entries, i + 1, seen + {naming.key(entries[i].name)}, total + entries[i].size,
                      inventory[entries[i].name := Inventoried(kind, entries[i].size)],
                      if kind == Manifest then Some(entries[i].name) else manifest)
  {
    TakeOne(entries, i);
    ManifestNext(entries[..i], entries[i], kind);
  }

  lemma ManifestNext(entries: seq<Entry>, e: Entry, kind: EntryKind)
    requires Classify(e.name) == Success(kind)
    ensures HasManifest(entries + [e]) <==> HasManifest(entries) || kind == Manifest
  {
    if HasManifest(entries) {
      var m :| m in entries && m.name == MANIFEST_ENTRY;
      assert m in entries + [e];
    }
    if kind == Manifest {
      assert e in entries + [e];
    }
  }

  lemma SecondManifestCollides(naming: Naming, entries: seq<Entry>, i: nat)
    requires i < |entries| && entries[i].name == MANIFEST_ENTRY && HasManifest(entries[..i])
    ensures Collides(naming, entries, i)
  {
    var e :| e in entries[..i] && e.name == MANIFEST_ENTRY;
    var j :| 0 <= j < i && entries[j] == e;
    assert naming.key(entries[j].name) == naming.key(entries[i].name);
  }

  lemma NoSecondManifest(naming: Naming, limits: Limits, entries: seq<Entry>, i: nat, kind: EntryKind)
    requires i < |entries| && EntryFault(naming, limits, entries, i).None? && Classify(entries[i].name) == Success(kind)
    ensures HasManifest(entries[..i]) ==> kind != Manifest
  {
    if HasManifest(entries[..i]) && kind == Manifest {
      SecondManifestCollides(naming, entries, i);
    }
  }
}
