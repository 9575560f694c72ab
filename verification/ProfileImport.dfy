/** Reading a profile archive into a staging directory that did not exist before. */
module ProfileImport {
  import opened Wrappers
  import opened OrderedMaps
  import opened Ordering
  import opened Journal
  import opened CopyLoop
  import opened ProfileArchive
  import opened ProfileBinding
  import opened ProfileExport

  // ----- Entries by name --------------------------------------------------------------------------------

  function Found(entries: seq<Entry>, name: string): (r: Option<Entry>)
    ensures r.None? <==> forall e :: e in entries ==> e.name != name
    ensures r.Some? ==> r.value in entries && r.value.name == name
  {
    if entries == [] then None
    else if entries[0].name == name then Some(entries[0])
    else Found(entries[1..], name)
  }

  function ContentOf(entries: seq<Entry>, name: string): Bytes
  {
    match Found(entries, name)
    case None => []
    case Some(e) => e.content
  }

  /** What an inspection leaves of the names: all different, all of a known kind. */
  predicate CleanNames(entries: seq<Entry>)
  {
    && (forall i, j :: 0 <= i < j < |entries| ==> entries[i].name != entries[j].name)
    && (forall e :: e in entries ==> Classify(e.name).Success?)
  }

  lemma FaultlessEntry(naming: Naming, limits: Limits, entries: seq<Entry>, j: nat)
    requires j < |entries| && EntryFault(naming, limits, entries, j).None?
    ensures Classify(entries[j].name).Success? && entries[j].size <= U64_MAX
    ensures forall i :: 0 <= i < j ==> entries[i].name != entries[j].name
  {
    forall i | 0 <= i < j
      ensures entries[i].name != entries[j].name
    {
      assert naming.key(entries[i].name) != naming.key(entries[j].name);
    }
  }

  lemma InspectedNames(naming: Naming, limits: Limits, entries: seq<Entry>)
    requires FaultlessUpTo(naming, limits, entries, |entries|)
    ensures CleanNames(entries)
    ensures forall e :: e in entries ==> e.size <= U64_MAX
  {
    forall j | 0 <= j < |entries|
      ensures Classify(entries[j].name).Success? && entries[j].size <= U64_MAX
      ensures forall i :: 0 <= i < j ==> entries[i].name != entries[j].name
    {
      assert EntryFault(naming, limits, entries, j).None?;
      FaultlessEntry(naming, limits, entries, j);
    }
  }

  lemma FoundAt(entries: seq<Entry>, e: Entry)
    requires CleanNames(entries) && e in entries
    ensures Found(entries, e.name) == Some(e)
  {
    var f := Found(entries, e.name).value;
    var i :| 0 <= i < |entries| && entries[i] == e;
    var j :| 0 <= j < |entries| && entries[j] == f;
  }

  /** The inventory lists exactly the entries. */
  lemma {:induction false} InventoryMeaning(entries: seq<Entry>)
    requires CleanNames(entries)
    ensures forall n :: n in Inventory(entries) <==> exists e :: e in entries && e.name == n
    ensures forall e :: e in entries ==>
              e.name in Inventory(entries) && Inventory(entries)[e.name] == Inventoried(Classify(e.name).value, e.size)
  {
    if entries != [] {
      var n := |entries| - 1;
      InventoryMeaning(entries[..n]);
      assert entries == entries[..n] + [entries[n]];
      forall e | e in entries[..n]
        ensures e.name != entries[n].name
      {
        var i :| 0 <= i < n && entries[i] == e;
      }
    }
  }

  lemma InventoryWellNamed(entries: seq<Entry>)
    requires CleanNames(entries)
    ensures WellNamed(Inventory(entries))
  {
    InventoryMeaning(entries);
    forall n | n in Inventory(entries)
      ensures match Inventory(entries)[n].kind
              case Manifest => n == MANIFEST_ENTRY
              case Artifact(h) => n == ArtifactName(h) && ValidSha256(h)
    {
      var e :| e in entries && e.name == n;
      match Inventory(entries)[n].kind
      case Manifest => ClassifyMeaning(n, "");
      case Artifact(h) => ClassifyMeaning(n, h);
    }
  }

  // ----- Exactly the expected entries ---------------------------------------------------------------------

  /**
   * In an inspected archive that is bound to a document, each expected hash has its one entry, of
   * the declared size, and besides these there is the manifest and nothing else. So no later
   * look-up of an entry can fail.
   */
  lemma BoundExactly(naming: Naming, limits: Limits, archive: Archive, expected: map<string, nat>)
    requires Inspectable(naming, limits, archive) && Bound(Inventory(archive.entries), expected)
    ensures Found(archive.entries, MANIFEST_ENTRY).Some?
    ensures forall h :: h in expected ==>
              ValidSha256(h) && Found(archive.entries, ArtifactName(h)).Some?
              && Found(archive.entries, ArtifactName(h)).value.size == expected[h] <= U64_MAX
    ensures forall e :: e in archive.entries && e.name != MANIFEST_ENTRY ==>
              exists h :: h in expected && e.name == ArtifactName(h)
    ensures CleanNames(archive.entries)
  {
    var entries := archive.entries;
    InspectedNames(naming, limits, entries);
    InventoryMeaning(entries);
    InventoryWellNamed(entries);
    forall h | h in expected
      ensures ValidSha256(h) && Found(entries, ArtifactName(h)).Some?
      ensures Found(entries, ArtifactName(h)).value.size == expected[h] <= U64_MAX
    {
      assert ArtifactName(h) in Inventory(entries);
    }
    forall e | e in entries && e.name != MANIFEST_ENTRY
      ensures exists h :: h in expected && e.name == ArtifactName(h)
    {
      EntryIsExpected(entries, expected, e);
    }
  }

  lemma EntryIsExpected(entries: seq<Entry>, expected: map<string, nat>, e: Entry)
    requires CleanNames(entries) && SetBound(Inventory(entries), expected)
    requires e in entries && e.name != MANIFEST_ENTRY
    ensures exists h :: h in expected && e.name == ArtifactName(h)
  {
    InventoryMeaning(entries);
    var kind := Classify(e.name).value;
    ClassifyMeaning(e.name, kind.sha256);
    assert e.name in Inventory(entries) && Inventory(entries)[e.name].kind == kind;
  }

  // ----- The import ------------------------------------------------------------------------------------------

  predicate ManifestReadable(limits: Limits, e: Entry)
  {
    e.content != [] && |e.content| == e.size && e.size <= limits.maxManifest
  }

  /** Reads no more than one byte past the limit. */
  method ReadManifest(entries: seq<Entry>, limits: Limits) returns (r: Result<Bytes, ArchiveError>)
    requires Found(entries, MANIFEST_ENTRY).Some?
    ensures r.Success? <==> ManifestReadable(limits, Found(entries, MANIFEST_ENTRY).value)
    ensures r.Success? ==> r.value == ContentOf(entries, MANIFEST_ENTRY)
    ensures r.Failure? ==> r.error == ManifestSizeInvalid
  {
    var e := Found(entries, MANIFEST_ENTRY).value;
    var bytes := if |e.content| > limits.maxManifest + 1 then e.content[..limits.maxManifest + 1] else e.content;
    if bytes == [] || |bytes| != e.size || |bytes| > limits.maxManifest {
      return Failure(ManifestSizeInvalid);
    }
    return Success(bytes);
  }

  predicate DocumentImportable(platform: Platform, bytes: Bytes)
  {
    && platform.decode(bytes).Some?
    && var document := platform.decode(bytes).value;
       ValidDocument(platform, document) && Consistent(Refs(document)) && |SizesOf(Refs(document))| <= MAX_PROFILE_ARTIFACTS
  }

  /** The entry of a hash delivers the declared size and that hash. */
  predicate Delivers(platform: Platform, entries: seq<Entry>, h: string, size: nat)
  {
    var content := ContentOf(entries, ArtifactName(h));
    |content| == size && platform.sha256(content) == h
  }

  function DocumentIn(platform: Platform, entries: seq<Entry>): Document
    requires DocumentImportable(platform, ContentOf(entries, MANIFEST_ENTRY))
  {
    platform.decode(ContentOf(entries, MANIFEST_ENTRY)).value
  }

  predicate AllDelivered(platform: Platform, entries: seq<Entry>, expected: map<string, nat>)
  {
    forall h :: h in expected ==> Delivers(platform, entries, h, expected[h])
  }

  predicate ArchiveImportable(platform: Platform, limits: Limits, archive: Archive)
  {
    && Inspectable(platform.naming, limits, archive)
    && Found(archive.entries, MANIFEST_ENTRY).Some?
    && ManifestReadable(limits, Found(archive.entries, MANIFEST_ENTRY).value)
    && DocumentImportable(platform, ContentOf(archive.entries, MANIFEST_ENTRY))
    && var expected := SizesOf(Refs(DocumentIn(platform, archive.entries)));
       Bound(Inventory(archive.entries), expected) && AllDelivered(platform, archive.entries, expected)
  }

  predicate Importable(platform: Platform, limits: Limits, file: Bytes)
  {
    && ValidLimits(limits) && 0 < |file| <= limits.maxArchive
    && platform.read(file).Some? && ArchiveImportable(platform, limits, platform.read(file).value)
  }

  /** The staged files: the manifest and one file per hash. */
  function StagedFiles(entries: seq<Entry>, hashes: set<string>): map<string, Bytes>
  {
    map n | n in {MANIFEST_ENTRY} + (set h | h in hashes :: ArtifactName(h)) :: ContentOf(entries, n)
  }

  class StagingArea {
    var files: Option<map<string, Bytes>>

    constructor ()
      ensures files.None?
    {
      files := None;
    }
  }

  datatype Imported = Imported(document: Document, archiveSha256: string, artifacts: map<string, nat>)

  function CopyFault(error: CopyError): ArchiveError
  {
    match error
    case SizeOverflow => SizeOverflowed
    case TooLarge => ArtifactTooLarge
  }

  /** What is wrong with the bytes an entry delivers: too many first, then too few, then others than declared. */
  predicate DeliveryFault(platform: Platform, content: Bytes, h: string, size: nat, error: ArchiveError)
  {
    if |content| > size then error == ArtifactTooLarge || (error == SizeOverflowed && size > U64_MAX - IO_BUFFER_BYTES)
    else if |content| < size then error == ContentSizeMismatch
    else platform.sha256(content) != h && error == ContentHashMismatch
  }

  method StageArtifact(platform: Platform, entries: seq<Entry>, h: string, size: nat, pace: nat -> nat)
    returns (r: Result<Bytes, ArchiveError>)
    requires Found(entries, ArtifactName(h)).Some? && size <= U64_MAX
    ensures r.Success? <==> Delivers(platform, entries, h, size)
    ensures r.Success? ==> r.value == ContentOf(entries, ArtifactName(h))
    ensures r.Failure? ==> DeliveryFault(platform, ContentOf(entries, ArtifactName(h)), h, size, r.error)
  {
    var input := new Reader(pace, Found(entries, ArtifactName(h)).value.content);
    var output := new Output();
    ghost var content := input.rest;
    var copied := CopyAndHash(input, output, platform.sha256, size);
    if copied.Failure? {
      return Failure(CopyFault(copied.error));
    }
    if copied.value.0 != size {
      return Failure(ContentSizeMismatch);
    }
    if copied.value.1 != h {
      return Failure(ContentHashMismatch);
    }
    assert [] + content == content;
    return Success(output.written);
  }

  lemma StagedOneMore(entries: seq<Entry>, done: set<string>, h: string)
    ensures StagedFiles(entries, done + {h})
         == StagedFiles(entries, done)[ArtifactName(h) := ContentOf(entries, ArtifactName(h))]
  {
  }

  lemma StagedNext(entries: seq<Entry>, hashes: set<string>, todo: set<string>, h: string)
    requires h in todo && todo <= hashes
    ensures StagedFiles(entries, hashes - (todo - {h}))
         == StagedFiles(entries, hashes - todo)[ArtifactName(h) := ContentOf(entries, ArtifactName(h))]
  {
    StagedOneMore(entries, hashes - todo, h);
    assert hashes - todo + {h} == hashes - (todo - {h});
  }

  lemma NothingStaged(entries: seq<Entry>, hashes: set<string>)
    ensures StagedFiles(entries, hashes - hashes) == map[MANIFEST_ENTRY := ContentOf(entries, MANIFEST_ENTRY)]
    ensures hashes - {} == hashes
  {
    assert hashes - hashes == {};
  }

  /** The first hash, in order, whose entry does not deliver decides the error. */
  ghost predicate StagingFault(platform: Platform, entries: seq<Entry>, expected: map<string, nat>, error: ArchiveError)
  {
    exists h :: h in expected && !Delivers(platform, entries, h, expected[h])
                && (forall k :: k in expected && AtMost(k, h) && k != h ==> Delivers(platform, entries, k, expected[k]))
                && DeliveryFault(platform, ContentOf(entries, ArtifactName(h)), h, expected[h], error)
  }

  lemma FirstFailing(platform: Platform, entries: seq<Entry>, expected: map<string, nat>, todo: set<string>, h: string,
                     error: ArchiveError)
    requires todo <= expected.Keys && IsLeast(h, todo) && !Delivers(platform, entries, h, expected[h])
    requires forall k :: k in expected && k !in todo ==> Delivers(platform, entries, k, expected[k])
    requires DeliveryFault(platform, ContentOf(entries, ArtifactName(h)), h, expected[h], error)
    ensures StagingFault(platform, entries, expected, error)
  {
    forall k | k in expected && AtMost(k, h) && k != h
      ensures Delivers(platform, entries, k, expected[k])
    {
      if k in todo {
        AtMostAntisymmetric(k, h);
      }
    }
  }

  method StageArtifacts(platform: Platform, entries: seq<Entry>, expected: map<string, nat>, manifest: Bytes, pace: nat -> nat)
    returns (r: Result<map<string, Bytes>, ArchiveError>)
    requires manifest == ContentOf(entries, MANIFEST_ENTRY)
    requires forall h :: h in expected ==> Found(entries, ArtifactName(h)).Some? && expected[h] <= U64_MAX
    ensures r.Success? <==> AllDelivered(platform, entries, expected)
    ensures r.Success? ==> r.value == StagedFiles(entries, expected.Keys)
    ensures r.Failure? ==> StagingFault(platform, entries, expected, r.error)
  {
    var staged := map[MANIFEST_ENTRY := manifest];
    var todo := expected.Keys;
    NothingStaged(entries, expected.Keys);
    while todo != {}
      invariant todo <= expected.Keys && staged == StagedFiles(entries, expected.Keys - todo)
      invariant forall h :: h in expected && h !in todo ==> Delivers(platform, entries, h, expected[h])
      decreases todo
    {
      LeastExists(todo);
      var h :| IsLeast(h, todo);
      var bytes := StageArtifact(platform, entries, h, expected[h], pace);
      if bytes.Failure? {
        FirstFailing(platform, entries, expected, todo, h, bytes.error);
        return Failure(bytes.error);
      }
      StagedNext(entries, expected.Keys, todo, h);
      staged := staged[ArtifactName(h) := bytes.value];
      todo := todo - {h};
    }
    return Success(staged);
  }

  datatype Accepted = Accepted(document: Document, expected: map<string, nat>, manifest: Bytes)

  /** Everything that is checked before anything is staged. */
  predicate ArchiveAcceptable(platform: Platform, limits: Limits, archive: Archive)
  {
    && Inspectable(platform.naming, limits, archive)
    && Found(archive.entries, MANIFEST_ENTRY).Some?
    && ManifestReadable(limits, Found(archive.entries, MANIFEST_ENTRY).value)
    && DocumentImportable(platform, ContentOf(archive.entries, MANIFEST_ENTRY))
    && Bound(Inventory(archive.entries), SizesOf(Refs(DocumentIn(platform, archive.entries))))
  }

  /** Why an archive is not accepted: the first check that fails, from the inspection to the binding. */
  ghost predicate AcceptFault(platform: Platform, limits: Limits, archive: Archive, error: ArchiveError)
  {
    var bytes := ContentOf(archive.entries, MANIFEST_ENTRY);
    if !Inspectable(platform.naming, limits, archive) then IsFault(platform.naming, limits, archive, error)
    else if !(Found(archive.entries, MANIFEST_ENTRY).Some?
              && ManifestReadable(limits, Found(archive.entries, MANIFEST_ENTRY).value)) then error == ManifestSizeInvalid
    else if platform.decode(bytes).None? then error == ManifestInvalid
    else
      var document := platform.decode(bytes).value;
      if !ValidDocument(platform, document) then error == DocumentInvalid
      else if !Consistent(Refs(document)) then error == ArtifactIdentityConflict
      else if |SizesOf(Refs(document))| > MAX_PROFILE_ARTIFACTS then error == ArtifactCountInvalid
      else if !SetBound(Inventory(archive.entries), SizesOf(Refs(document))) then error == ArtifactSetMismatch
      else error == ArtifactSizeMismatch
  }

  method Accept(platform: Platform, limits: Limits, archive: Archive) returns (r: Result<Accepted, ArchiveError>)
    ensures r.Success? <==> ArchiveAcceptable(platform, limits, archive)
    ensures r.Success? ==>
              var document := DocumentIn(platform, archive.entries);
              r.value == Accepted(document, SizesOf(Refs(document)), ContentOf(archive.entries, MANIFEST_ENTRY))
    ensures r.Failure? ==> AcceptFault(platform, limits, archive, r.error)
  {
    var inventory := InspectArchive(platform.naming, limits, archive);
    if inventory.Failure? {
      return Failure(inventory.error);
    }
    InspectedNames(platform.naming, limits, archive.entries);
    InventoryWellNamed(archive.entries);
    var manifest := ReadManifest(archive.entries, limits);
    if manifest.Failure? {
      return Failure(manifest.error);
    }
    var document := platform.decode(manifest.value);
    if document.None? {
      return Failure(ManifestInvalid);
    }
    if !ValidDocument(platform, document.value) {
      return Failure(DocumentInvalid);
    }
    var expected := ExpectedArtifacts(document.value);
    if expected.Failure? {
      return Failure(expected.error);
    }
    var bound := ValidateInventoryBinding(inventory.value, expected.value);
    if bound.Failure? {
      return Failure(bound.error);
    }
    return Success(Accepted(document.value, expected.value, manifest.value));
  }

  function ImportedFrom(platform: Platform, limits: Limits, file: Bytes): Imported
    requires Importable(platform, limits, file)
  {
    var document := DocumentIn(platform, platform.read(file).value.entries);
    Imported(document, platform.sha256(file), SizesOf(Refs(document)))
  }

  /** Stages what was accepted; a failure takes the directory away again, if it can be removed. */
  method StageAccepted(platform: Platform, limits: Limits, archive: Archive, accepted: Accepted, staging: StagingArea,
                       removes: bool, pace: nat -> nat)
    returns (fault: Option<ArchiveError>)
    requires ArchiveAcceptable(platform, limits, archive)
    requires var document := DocumentIn(platform, archive.entries);
             accepted == Accepted(document, SizesOf(Refs(document)), ContentOf(archive.entries, MANIFEST_ENTRY))
    modifies staging
    ensures fault.None? <==> ArchiveImportable(platform, limits, archive) && old(staging.files).None?
    ensures fault.None? ==> staging.files == Some(StagedFiles(archive.entries, accepted.expected.Keys))
    ensures fault.Some? && removes ==> staging.files == old(staging.files)
    ensures fault.Some? ==>
              if old(staging.files).Some? then fault.value == StagingExists
              else StagingFault(platform, archive.entries, accepted.expected, fault.value)
  {
    if staging.files.Some? {
      return Some(StagingExists);
    }
    BoundExactly(platform.naming, limits, archive, accepted.expected);
    staging.files := Some(map[MANIFEST_ENTRY := accepted.manifest]);
    var staged := StageArtifacts(platform, archive.entries, accepted.expected, accepted.manifest, pace);
    if staged.Failure? {
      if removes {
        staging.files := None;
      }
      return Some(staged.error);
    }
    staging.files := Some(staged.value);
    return None;
  }

  /** Why an import fails, in the order of its checks. */
  ghost predicate ImportFault(platform: Platform, limits: Limits, file: Bytes, staged: bool, error: ArchiveError)
  {
    if !ValidLimits(limits) then error == LimitsInvalid
    else if |file| == 0 || |file| > limits.maxArchive then error == ArchiveSizeInvalid
    else if platform.read(file).None? then error == ArchiveInvalid
    else
      var archive := platform.read(file).value;
      if !ArchiveAcceptable(platform, limits, archive) then AcceptFault(platform, limits, archive, error)
      else if staged then error == StagingExists
      else StagingFault(platform, archive.entries, SizesOf(Refs(DocumentIn(platform, archive.entries))), error)
  }

  /**
   * Imports an archive: exactly the importable ones, with the manifest's document and each expected
   * hash's bytes staged. A failure leaves no staging directory, as far as it can be removed.
   */
  method Import(platform: Platform, limits: Limits, file: Bytes, staging: StagingArea, removes: bool, pace: nat -> nat)
    returns (r: Result<Imported, ArchiveError>)
    modifies staging
    ensures r.Success? <==> Importable(platform, limits, file) && old(staging.files).None?
    ensures r.Success? ==> r.value == ImportedFrom(platform, limits, file)
    ensures r.Success? ==>
              staging.files == Some(StagedFiles(platform.read(file).value.entries, r.value.artifacts.Keys))
    ensures r.Failure? && removes ==> staging.files == old(staging.files)
    ensures r.Failure? ==> ImportFault(platform, limits, file, old(staging.files).Some?, r.error)
  {
    if !ValidLimits(limits) {
      return Failure(LimitsInvalid);
    }
    if |file| == 0 || |file| > limits.maxArchive {
      return Failure(ArchiveSizeInvalid);
    }
    var archive := platform.read(file);
    if archive.None? {
      return Failure(ArchiveInvalid);
    }
    var accepted := Accept(platform, limits, archive.value);
    if accepted.Failure? {
      return Failure(accepted.error);
    }
    var fault := StageAccepted(platform, limits, archive.value, accepted.value, staging, removes, pace);
    if fault.Some? {
      return Failure(fault.value);
    }
    return Success(Imported(accepted.value.document, platform.sha256(file), accepted.value.expected));
  }
}
