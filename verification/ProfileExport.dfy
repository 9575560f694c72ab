/** Writing a profile archive: under a temporary name first, then renamed into place. */
module ProfileExport {
  import opened Wrappers
  import opened OrderedMaps
  import opened Ordering
  import opened Journal
  import opened CopyLoop
  import opened TemporaryNames
  import opened ProfileArchive
  import opened ProfileBinding

  const PROFILE_EXPORT_FORMAT := "site.s9lab.profile-export"
  const PROFILE_EXPORT_FORMAT_VERSION := 1

  /** One entry to be written. */
  datatype Item = Item(name: string, bytes: Bytes)

  /**
   * What the archive code borrows: the hash, names, the document format and its validation, and
   * the ZIP format. `extra` says whether the writer gives the i-th entry a header extension, and
   * `zip64` whether it ends the archive with a ZIP64 record, which a reader reports as a comment.
   */
  datatype Platform = Platform(
    sha256: Bytes -> string,
    naming: Naming,
    encode: Document -> Bytes,
    decode: Bytes -> Option<Document>,
    acceptable: Document -> bool,
    write: seq<Item> -> Bytes,
    read: Bytes -> Option<Archive>,
    extra: (seq<Item>, nat) -> bool,
    zip64: seq<Item> -> bool)

  /** Which of the calls that end an export succeed. */
  datatype Disk = Disk(writes: bool, renames: bool, syncs: bool, removes: bool)

  predicate ValidDocument(platform: Platform, document: Document)
  {
    && document.format == PROFILE_EXPORT_FORMAT && document.version == PROFILE_EXPORT_FORMAT_VERSION
    && platform.acceptable(document)
  }

  // ----- What an export writes ------------------------------------------------------------------------------

  ghost function ArtifactItems(sources: map<string, Source>, hashes: seq<string>): seq<Item>
    requires forall h :: h in hashes ==> h in sources
  {
    if hashes == [] then [] else [Item(ArtifactName(hashes[0]), sources[hashes[0]].content)] + ArtifactItems(sources, hashes[1..])
  }

  /** The manifest, then one entry per hash, in the order of the hashes. */
  ghost function ExportedItems(platform: Platform, document: Document, sources: seq<Source>): seq<Item>
  {
    [Item(MANIFEST_ENTRY, platform.encode(document))] + ArtifactItems(ByHash(sources), InOrder(ByHash(sources).Keys))
  }

  /** A source really is what it claims to be. */
  predicate Genuine(platform: Platform, s: Source)
  {
    |s.content| == s.size && platform.sha256(s.content) == s.sha256
  }

  predicate AllGenuine(platform: Platform, sources: seq<Source>)
  {
    forall s :: s in sources ==> Genuine(platform, s)
  }

  /** What is checked before anything is written. */
  predicate Preparable(platform: Platform, limits: Limits, document: Document, sources: seq<Source>)
  {
    && ValidLimits(limits) && ValidDocument(platform, document)
    && Consistent(Refs(document)) && |SizesOf(Refs(document))| <= MAX_PROFILE_ARTIFACTS
    && SourcesMatch(SizesOf(Refs(document)), limits, sources)
    && |platform.encode(document)| <= limits.maxManifest
  }

  /** Everything an export demands of the document, the sources and the limits. */
  ghost predicate Exportable(platform: Platform, limits: Limits, document: Document, sources: seq<Source>)
  {
    && Preparable(platform, limits, document, sources)
    && AllGenuine(platform, sources)
    && 0 < |platform.write(ExportedItems(platform, document, sources))| <= limits.maxArchive
  }

  class ZipWriter {
    var items: seq<Item>

    constructor ()
      ensures items == []
    {
      items := [];
    }

    method AddFile(name: string, bytes: Bytes)
      modifies this
      ensures items == old(items) + [Item(name, bytes)]
    {
      items := items + [Item(name, bytes)];
    }
  }

  /** Copies a source into the archive, making sure it is what it claims to be. */
  method CopyVerifiedSource(platform: Platform, s: Source, expectedSize: nat, sha256: string, pace: nat -> nat)
    returns (r: Result<Bytes, ArchiveError>)
    requires expectedSize <= U64_MAX && s.size == expectedSize && s.sha256 == sha256
    ensures r.Success? <==> Genuine(platform, s)
    ensures r.Success? ==> r.value == s.content
    ensures r.Failure? ==> r.error == if |s.content| != s.size then SourceSizeMismatch else SourceHashMismatch
  {
    if |s.content| != expectedSize {
      return Failure(SourceSizeMismatch);
    }
    var input := new Reader(pace, s.content);
    var output := new Output();
    var copied := CopyAndHash(input, output, platform.sha256, expectedSize);
    if copied.value.1 != sha256 {
      return Failure(SourceHashMismatch);
    }
    assert [] + s.content == s.content;
    return Success(output.written);
  }

  lemma ArtifactItemsStep(sources: map<string, Source>, done: seq<Item>, hashes: seq<string>)
    requires hashes != [] && forall h :: h in hashes ==> h in sources
    ensures done + ArtifactItems(sources, hashes)
            == (done + [Item(ArtifactName(hashes[0]), sources[hashes[0]].content)]) + ArtifactItems(sources, hashes[1..])
  {
  }

  // ----- Sums over sources -----------------------------------------------------------------------------------

  predicate NoRepeats(sources: seq<Source>)
  {
    forall i :: 0 <= i < |sources| ==> !Repeated(sources, i)
  }

  lemma RepeatWitness(sources: seq<Source>, i: nat, j: nat)
    requires i < j < |sources| && sources[i].sha256 == sources[j].sha256
    ensures !NoRepeats(sources)
  {
    assert Repeated(sources, j);
  }

  lemma WithoutLast(sources: seq<Source>)
    requires sources != [] && NoRepeats(sources)
    ensures NoRepeats(sources[..|sources| - 1])
    ensures ByHash(sources).Keys == ByHash(sources[..|sources| - 1]).Keys + {sources[|sources| - 1].sha256}
    ensures sources[|sources| - 1].sha256 !in ByHash(sources[..|sources| - 1])
  {
    var n := |sources| - 1;
    forall i | 0 <= i < n
      ensures !Repeated(sources[..n], i)
    {
      assert !Repeated(sources, i);
    }
    ByHashKeys(sources[..n]);
    assert !Repeated(sources, n);
  }

  predicate SizesAgree(sizes: map<string, nat>, sources: seq<Source>)
  {
    forall s :: s in sources ==> s.sha256 in sizes && sizes[s.sha256] == s.size
  }

  lemma {:induction false} SumIsTotal(sizes: map<string, nat>, sources: seq<Source>)
    requires NoRepeats(sources) && SizesAgree(sizes, sources)
    ensures ByHash(sources).Keys <= sizes.Keys
    ensures SumOver(sizes, InOrder(ByHash(sources).Keys)) == TotalSize(sources)
  {
    if sources != [] {
      var prefix, last := sources[..|sources| - 1], sources[|sources| - 1];
      WithoutLast(sources);
      assert last in sources;
      SumIsTotal(sizes, prefix);
      assert ByHash(sources).Keys - {last.sha256} == ByHash(prefix).Keys;
      SumWithout(sizes, ByHash(sources).Keys, last.sha256);
    }
  }

  /** The sizes add up to the sum the validation formed, so adding them again cannot overflow. */
  lemma ExpectedTotal(expected: map<string, nat>, limits: Limits, sources: seq<Source>)
    requires SourcesMatch(expected, limits, sources)
    ensures SumOver(expected, InOrder(expected.Keys)) == TotalSize(sources) <= U64_MAX
  {
    forall i | 0 <= i < |sources|
      ensures !Repeated(sources, i) && sources[i].sha256 in expected && expected[sources[i].sha256] == sources[i].size
    {
      assert SourceFault(expected, limits, sources, i).None?;
    }
    assert SizesAgree(expected, sources);
    SourcesAreExpected(expected, limits, sources);
    SumIsTotal(expected, sources);
    if sources != [] {
      var n := |sources| - 1;
      assert SourceFault(expected, limits, sources, n).None?;
    }
  }

  // ----- The export ------------------------------------------------------------------------------------------

  /** The first source, by hash, that is not what it claims to be decides the error. */
  ghost predicate CopyingFault(platform: Platform, sources: map<string, Source>, error: ArchiveError)
  {
    exists h :: FirstNotGenuine(platform, sources, h)
                && error == if |sources[h].content| != sources[h].size then SourceSizeMismatch else SourceHashMismatch
  }

  ghost predicate FirstNotGenuine(platform: Platform, sources: map<string, Source>, h: string)
  {
    && h in sources && !Genuine(platform, sources[h])
    && forall k :: k in sources && AtMost(k, h) && k != h ==> Genuine(platform, sources[k])
  }

  lemma FirstForged(platform: Platform, sources: map<string, Source>, todo: set<string>, h: string)
    requires todo <= sources.Keys && IsLeast(h, todo) && !Genuine(platform, sources[h])
    requires forall k :: k in sources && k !in todo ==> Genuine(platform, sources[k])
    ensures FirstNotGenuine(platform, sources, h)
  {
    forall k | k in sources && AtMost(k, h) && k != h
      ensures Genuine(platform, sources[k])
    {
      if k in todo {
        AtMostAntisymmetric(k, h);
      }
    }
  }

  /** Writes every expected artifact, hash by hash; a source can never be missing. */
  method WriteArtifacts(platform: Platform, expected: map<string, nat>, sources: map<string, Source>, writer: ZipWriter,
                        pace: nat -> nat)
    returns (r: Result<nat, ArchiveError>)
    requires sources.Keys == expected.Keys && SumOver(expected, InOrder(expected.Keys)) <= U64_MAX
    requires forall h :: h in expected ==> sources[h].size == expected[h] <= U64_MAX && sources[h].sha256 == h
    modifies writer
    ensures r.Success? <==> GenuineMap(platform, sources)
    ensures r.Success? ==> writer.items == old(writer.items) + ArtifactItems(sources, InOrder(sources.Keys))
    ensures r.Success? ==> r.value == SumOver(expected, InOrder(expected.Keys))
    ensures r.Failure? ==> CopyingFault(platform, sources, r.error)
  {
    var todo := expected.Keys;
    var total := 0;
    ghost var goal := writer.items + ArtifactItems(sources, InOrder(sources.Keys));
    while todo != {}
      invariant todo <= expected.Keys
      invariant forall h :: h in expected && h !in todo ==> Genuine(platform, sources[h])
      invariant writer.items + ArtifactItems(sources, InOrder(todo)) == goal
      invariant total + SumOver(expected, InOrder(todo)) == SumOver(expected, InOrder(expected.Keys))
      decreases todo
    {
      LeastExists(todo);
      var h :| IsLeast(h, todo);
      LeastUnique(h, Least(todo), todo);
      var copied := CopyVerifiedSource(platform, sources[h], expected[h], h, pace);
      if copied.Failure? {
        FirstForged(platform, sources, todo, h);
        return Failure(copied.error);
      }
      ghost var hashes := InOrder(todo);
      assert hashes[0] == h && hashes[1..] == InOrder(todo - {h});
      assert total + |copied.value| <= U64_MAX;
      total := total + |copied.value|;
      ArtifactItemsStep(sources, writer.items, hashes);
      writer.AddFile(ArtifactName(h), copied.value);
      todo := todo - {h};
    }
    assert writer.items + [] == writer.items;
    return Success(total);
  }

  datatype Prepared = Prepared(expected: map<string, nat>, sources: map<string, Source>, manifest: Bytes)

  /** Why an export is refused before the folder is looked at, in the order of the checks. */
  ghost predicate PrepareFault(platform: Platform, limits: Limits, document: Document, sources: seq<Source>,
                               error: ArchiveError)
  {
    if !ValidLimits(limits) then error == LimitsInvalid
    else if !ValidDocument(platform, document) then error == DocumentInvalid
    else if !Consistent(Refs(document)) then error == ArtifactIdentityConflict
    else if |SizesOf(Refs(document))| > MAX_PROFILE_ARTIFACTS then error == ArtifactCountInvalid
    else if !SourcesMatch(SizesOf(Refs(document)), limits, sources)
    then IsSourceFault(SizesOf(Refs(document)), limits, sources, error)
    else error == ManifestTooLarge && |platform.encode(document)| > limits.maxManifest
  }

  method Prepare(platform: Platform, limits: Limits, document: Document, sources: seq<Source>)
    returns (r: Result<Prepared, ArchiveError>)
    ensures r.Success? <==> Preparable(platform, limits, document, sources)
    ensures r.Success? ==> r.value == Prepared(SizesOf(Refs(document)), ByHash(sources), platform.encode(document))
    ensures r.Failure? ==> PrepareFault(platform, limits, document, sources, r.error)
  {
    if !ValidLimits(limits) {
      return Failure(LimitsInvalid);
    }
    if !ValidDocument(platform, document) {
      return Failure(DocumentInvalid);
    }
    var expected := ExpectedArtifacts(document);
    if expected.Failure? {
      return Failure(expected.error);
    }
    var byHash := ValidateArtifactSources(expected.value, sources, limits);
    if byHash.Failure? {
      return Failure(byHash.error);
    }
    var manifest := platform.encode(document);
    if |manifest| > limits.maxManifest {
      return Failure(ManifestTooLarge);
    }
    return Success(Prepared(expected.value, byHash.value, manifest));
  }

  lemma FoundByHash(sources: seq<Source>, s: Source)
    requires NoRepeats(sources) && s in sources
    ensures s.sha256 in ByHash(sources) && ByHash(sources)[s.sha256] == s
  {
    ByHashKeys(sources);
    var i :| 0 <= i < |sources| && sources[i] == s;
    var j :| 0 <= j < |sources| && sources[j] == ByHash(sources)[s.sha256];
    if i < j {
      RepeatWitness(sources, i, j);
    } else if j < i {
      RepeatWitness(sources, j, i);
    }
  }

  predicate GenuineMap(platform: Platform, sources: map<string, Source>)
  {
    forall h :: h in sources ==> Genuine(platform, sources[h])
  }

  lemma GenuineByHash(platform: Platform, sources: seq<Source>)
    requires NoRepeats(sources)
    ensures AllGenuine(platform, sources) <==> GenuineMap(platform, ByHash(sources))
  {
    var byHash := ByHash(sources);
    ByHashKeys(sources);
    if GenuineMap(platform, byHash) {
      forall s | s in sources
        ensures Genuine(platform, s)
      {
        FoundByHash(sources, s);
        assert Genuine(platform, byHash[s.sha256]);
      }
    }
  }

  datatype Summary = Summary(artifactCount: nat, totalArtifactBytes: nat, archiveSize: nat, archiveSha256: string)

  ghost function SummaryOf(platform: Platform, document: Document, sources: seq<Source>): Summary
  {
    var file := platform.write(ExportedItems(platform, document, sources));
    Summary(|SizesOf(Refs(document))|, TotalSize(sources), |file|, platform.sha256(file))
  }

  /** The archive, if every source is genuine. */
  method BuildArchive(platform: Platform, limits: Limits, document: Document, sources: seq<Source>, prepared: Prepared,
                      pace: nat -> nat)
    returns (r: Result<(Bytes, nat), ArchiveError>)
    requires Preparable(platform, limits, document, sources)
    requires prepared == Prepared(SizesOf(Refs(document)), ByHash(sources), platform.encode(document))
    ensures r.Success? <==> AllGenuine(platform, sources)
    ensures r.Success? ==> r.value == (platform.write(ExportedItems(platform, document, sources)), TotalSize(sources))
    ensures r.Failure? ==> CopyingFault(platform, ByHash(sources), r.error)
  {
    PreparedFacts(platform, limits, prepared.expected, sources);
    var writer := new ZipWriter();
    writer.AddFile(MANIFEST_ENTRY, prepared.manifest);
    assert writer.items == [Item(MANIFEST_ENTRY, platform.encode(document))];
    var total := WriteArtifacts(platform, prepared.expected, prepared.sources, writer, pace);
    if total.Failure? {
      return Failure(total.error);
    }
    return Success((platform.write(writer.items), total.value));
  }

  lemma PreparedFacts(platform: Platform, limits: Limits, expected: map<string, nat>, sources: seq<Source>)
    requires SourcesMatch(expected, limits, sources)
    ensures ByHash(sources).Keys == expected.Keys
    ensures SumOver(expected, InOrder(expected.Keys)) == TotalSize(sources) <= U64_MAX
    ensures forall h :: h in expected ==>
              ByHash(sources)[h].size == expected[h] <= U64_MAX && ByHash(sources)[h].sha256 == h
    ensures AllGenuine(platform, sources) <==> GenuineMap(platform, ByHash(sources))
  {
    SourcesAreExpected(expected, limits, sources);
    ExpectedTotal(expected, limits, sources);
    SizesAreWords(expected, limits, sources);
    forall i | 0 <= i < |sources|
      ensures !Repeated(sources, i)
    {
      assert SourceFault(expected, limits, sources, i).None?;
    }
    GenuineByHash(platform, sources);
  }

  lemma SizesAreWords(expected: map<string, nat>, limits: Limits, sources: seq<Source>)
    requires SourcesMatch(expected, limits, sources)
    ensures forall h :: h in expected ==> expected[h] <= U64_MAX
  {
    SourcesAreExpected(expected, limits, sources);
    ByHashKeys(sources);
    forall h | h in expected
      ensures expected[h] <= U64_MAX
    {
      var i :| 0 <= i < |sources| && sources[i] == ByHash(sources)[h];
      assert SourceFault(expected, limits, sources, i).None?;
    }
  }

  /** Removes its file when dropped, unless disarmed. */
  class FileCleanup {
    var path: string
    var armed: bool

    constructor (path: string)
      ensures this.path == path && armed
    {
      this.path, armed := path, true;
    }

    method Drop(folder: Folder, disk: Disk)
      modifies folder
      ensures folder.counter == old(folder.counter)
      ensures folder.files == if armed && disk.removes then old(folder.files) - {path} else old(folder.files)
    {
      if armed && disk.removes {
        folder.files := folder.files - {path};
      }
    }
  }

  /** Why publishing fails: the write first, then the archive's size, then a destination in use, then the rename. */
  function PublishFault(limits: Limits, size: nat, taken: bool, disk: Disk): ArchiveError
  {
    if !disk.writes then IoFailed
    else if size == 0 || size > limits.maxArchive then ArchiveSizeInvalid
    else if taken then TargetExists
    else IoFailed
  }

  /** From the temporary file to the destination. Whatever fails, the guard knows the file to remove. */
  method Publish(platform: Platform, limits: Limits, folder: Folder, guard: FileCleanup, destination: string, archive: Bytes,
                 disk: Disk)
    returns (r: Result<(), ArchiveError>)
    requires guard.armed && guard.path in folder.files
    modifies folder, guard
    ensures r.Success? <==>
            disk.writes && 0 < |archive| <= limits.maxArchive && destination !in old(folder.files) && disk.renames && disk.syncs
    ensures r.Success? ==> !guard.armed && folder.files == (old(folder.files) - {old(guard.path)})[destination := archive]
    ensures r.Failure? ==> guard.armed && folder.files - {guard.path} == old(folder.files) - {old(guard.path)}
    ensures r.Failure? ==> r.error == PublishFault(limits, |archive|, destination in old(folder.files), disk)
  {
    if !disk.writes {
      return Failure(IoFailed);
    }
    folder.files := folder.files[guard.path := archive];
    if |archive| == 0 || |archive| > limits.maxArchive {
      return Failure(ArchiveSizeInvalid);
    }
    if destination in folder.files {
      return Failure(TargetExists);
    }
    if !disk.renames {
      return Failure(IoFailed);
    }
    folder.files := (folder.files - {guard.path})[destination := archive];
    guard.path := destination;
    if !disk.syncs {
      return Failure(IoFailed);
    }
    guard.armed := false;
    return Success(());
  }

  /** Builds and publishes the archive under an existing temporary name; removes it on failure. */
  method ExportUnder(platform: Platform, limits: Limits, document: Document, sources: seq<Source>, prepared: Prepared,
                     folder: Folder, temporary: string, destination: string, disk: Disk, pace: nat -> nat)
    returns (r: Result<Summary, ArchiveError>)
    requires Preparable(platform, limits, document, sources) && temporary in folder.files
    requires prepared == Prepared(SizesOf(Refs(document)), ByHash(sources), platform.encode(document))
    modifies folder
    ensures r.Success? <==>
            && AllGenuine(platform, sources)
            && 0 < |platform.write(ExportedItems(platform, document, sources))| <= limits.maxArchive
            && destination !in old(folder.files) && disk.writes && disk.renames && disk.syncs
    ensures r.Success? ==>
              && r.value == SummaryOf(platform, document, sources)
              && folder.files == (old(folder.files) - {temporary})
                                 [destination := platform.write(ExportedItems(platform, document, sources))]
    ensures r.Failure? && disk.removes ==> folder.files == old(folder.files) - {temporary}
    ensures r.Failure? ==>
              if !AllGenuine(platform, sources) then CopyingFault(platform, ByHash(sources), r.error)
              else r.error == PublishFault(limits, |platform.write(ExportedItems(platform, document, sources))|,
                                           destination in old(folder.files), disk)
  {
    var guard := new FileCleanup(temporary);
    var built := BuildArchive(platform, limits, document, sources, prepared, pace);
    if built.Failure? {
      guard.Drop(folder, disk);
      return Failure(built.error);
    }
    var published := Publish(platform, limits, folder, guard, destination, built.value.0, disk);
    guard.Drop(folder, disk);
    if published.Failure? {
      return Failure(published.error);
    }
    return Success(Summary(|prepared.expected|, built.value.1, |built.value.0|, platform.sha256(built.value.0)));
  }

  /** The temporary name is another name than the destination's. */
  ghost predicate TemporaryUsable(units: nat, counter: Word, files: map<string, Bytes>, destination: string)
  {
    exists t :: FirstFree(units, counter, files, t) && t != destination
  }

  lemma UsableExactly(units: nat, counter: Word, files: map<string, Bytes>, destination: string, t: string)
    requires FirstFree(units, counter, files, t)
    ensures TemporaryUsable(units, counter, files, destination) <==> t != destination
  {
    if s :| FirstFree(units, counter, files, s) && s != destination {
      FirstFreeUnique(units, counter, files, s, t);
    }
  }

  lemma NotUsable(units: nat, counter: Word, files: map<string, Bytes>, destination: string)
    requires AllTaken(units, counter, files)
    ensures !TemporaryUsable(units, counter, files, destination)
  {
  }

  /** Why an export fails, in the order of its checks. */
  ghost predicate ExportFault(platform: Platform, limits: Limits, document: Document, sources: seq<Source>,
                              files: map<string, Bytes>, counter: Word, destination: string, units: nat, disk: Disk,
                              error: ArchiveError)
  {
    if !Preparable(platform, limits, document, sources) then PrepareFault(platform, limits, document, sources, error)
    else if destination in files then error == TargetExists
    else if units == 0 then error == TargetNameMissing
    else if AllTaken(units, counter, files) then error == TemporaryNamesExhausted
    else if !AllGenuine(platform, sources) then CopyingFault(platform, ByHash(sources), error)
    else
      error == PublishFault(limits, |platform.write(ExportedItems(platform, document, sources))|,
                            !TemporaryUsable(units, counter, files, destination), disk)
  }

  /**
   * Writes a new archive next to the destination and renames it. A failure leaves the folder as it
   * was, as far as the temporary file can be removed. The export also fails when the temporary name
   * happens to be the destination's own.
   */
  method Export(platform: Platform, limits: Limits, document: Document, sources: seq<Source>, folder: Folder,
                destination: string, units: nat, disk: Disk, pace: nat -> nat)
    returns (r: Result<Summary, ArchiveError>)
    modifies folder
    ensures r.Success? <==>
            && Exportable(platform, limits, document, sources)
            && destination !in old(folder.files) && units > 0
            && TemporaryUsable(units, old(folder.counter), old(folder.files), destination)
            && disk.writes && disk.renames && disk.syncs
    ensures r.Success? ==>
              && r.value == SummaryOf(platform, document, sources)
              && folder.files == old(folder.files)[destination := platform.write(ExportedItems(platform, document, sources))]
    ensures r.Failure? && disk.removes ==> folder.files == old(folder.files)
    ensures r.Failure? ==> ExportFault(platform, limits, document, sources, old(folder.files), old(folder.counter),
                                       destination, units, disk, r.error)
  {
    var prepared := Prepare(platform, limits, document, sources);
    if prepared.Failure? {
      return Failure(prepared.error);
    }
    if destination in folder.files {
      return Failure(TargetExists);
    }
    if units == 0 {
      return Failure(TargetNameMissing);
    }
    ghost var before, counter := folder.files, folder.counter;
    var temporary := folder.CreateTemporaryFile(units);
    if temporary.None? {
      NotUsable(units, counter, before, destination);
      return Failure(TemporaryNamesExhausted);
    }
    UsableExactly(units, counter, before, destination, temporary.value);
    assert folder.files - {temporary.value} == before;
    r := ExportUnder(platform, limits, document, sources, prepared.value, folder, temporary.value, destination, disk, pace);
  }

  /**
   * That happens for names made of the alphabet: into an empty folder, the counter's first value
   * gives the one-letter name "b", so exporting to "b" fails although nothing is there.
   */
  lemma OwnNameFails()
    ensures !TemporaryUsable(1, 1, map[], "b")
  {
    FirstIsB();
    UsableExactly(1, 1, map[], "b", "b");
  }

  lemma FirstIsB()
    ensures FirstFree(1, 1, map[], "b")
  {
    TickNext(1, 0);
    assert NameOf(1, 1) == NameOf(0, 0) + [ALPHABET[1]];
    assert Attempt(1, 1, 0) == "b";
  }
}
