/**
 * What export and import promise about a document's artifacts and an archive's entries, told by
 * the document and the entries alone.
 */
module ArchiveMeaning {
  import opened Wrappers
  import opened OrderedMaps
  import opened Journal
  import opened CopyLoop
  import opened ProfileArchive
  import opened ProfileBinding
  import opened ProfileExport
  import opened ProfileImport
  import opened ProfileRoundTrip

  // ----- What an export contains ----------------------------------------------------------------------------

  /** This is the entry of the hash, with bytes of that hash and this size. */
  predicate CarriedBy(platform: Platform, item: Item, h: string, size: nat)
  {
    item.name == "artifacts/" + h && |item.bytes| == size && platform.sha256(item.bytes) == h
  }

  lemma SourceOf(platform: Platform, limits: Limits, document: Document, sources: seq<Source>, h: string, n: nat)
    requires Exportable(platform, limits, document, sources) && Refers(document, h, n)
    ensures h in ByHash(sources) && ByHash(sources)[h] in sources
    ensures |ByHash(sources)[h].content| == n && platform.sha256(ByHash(sources)[h].content) == h
  {
    ExpectedMeans(document);
    SourcesAreExpected(SizesOf(Refs(document)), limits, sources);
    ByHashKeys(sources);
    assert Genuine(platform, ByHash(sources)[h]);
  }

  /** Each item's and each override's artifact has its entry. */
  lemma ExportCarries(platform: Platform, limits: Limits, document: Document, sources: seq<Source>, h: string, n: nat)
    requires Exportable(platform, limits, document, sources) && Refers(document, h, n)
    ensures exists item :: item in ExportedItems(platform, document, sources) && CarriedBy(platform, item, h, n)
  {
    var items, hashes := ExportedItems(platform, document, sources), InOrder(ByHash(sources).Keys);
    SourceOf(platform, limits, document, sources, h, n);
    ExportShaped(platform, document, sources);
    var k :| 0 <= k < |hashes| && hashes[k] == h;
    assert items[k + 1] in items && CarriedBy(platform, items[k + 1], h, n);
  }

  /** There is nothing else but the manifest, which comes first. */
  lemma ExportCarriesOnly(platform: Platform, limits: Limits, document: Document, sources: seq<Source>, i: nat)
    requires Exportable(platform, limits, document, sources) && i < |ExportedItems(platform, document, sources)|
    ensures var item := ExportedItems(platform, document, sources)[i];
            if i == 0 then item == Item("profile.json", platform.encode(document))
            else exists h, n :: Refers(document, h, n) && CarriedBy(platform, item, h, n)
  {
    if i > 0 {
      var hashes, expected := InOrder(ByHash(sources).Keys), SizesOf(Refs(document));
      ExportShaped(platform, document, sources);
      SourcesAreExpected(expected, limits, sources);
      ExpectedMeans(document);
      var h := hashes[i - 1];
      assert h in hashes && h in expected && Refers(document, h, expected[h]);
      SourceOf(platform, limits, document, sources, h, expected[h]);
    }
  }

  // ----- When an export succeeds -------------------------------------------------------------------------------

  /** The sources offered are exactly the artifacts the document names, each once, with the named size. */
  ghost predicate SourcesFit(limits: Limits, document: Document, sources: seq<Source>)
  {
    && (forall i, j :: 0 <= i < j < |sources| ==> sources[i].sha256 != sources[j].sha256)
    && (forall s :: s in sources ==>
         Refers(document, s.sha256, s.size) && ValidSha256(s.sha256) && s.size <= limits.maxArtifact)
    && (forall h, n :: Refers(document, h, n) ==> exists s :: s in sources && s.sha256 == h)
    && |sources| <= 12288 && TotalSize(sources) <= limits.maxTotal && TotalSize(sources) <= U64_MAX
  }

  lemma FitMeansMatch(limits: Limits, document: Document, sources: seq<Source>)
    requires Consistent(Refs(document))
    ensures SourcesMatch(SizesOf(Refs(document)), limits, sources) <==> SourcesFit(limits, document, sources)
  {
    if SourcesMatch(SizesOf(Refs(document)), limits, sources) {
      MatchFits(limits, document, sources);
    }
    if SourcesFit(limits, document, sources) {
      FitMatches(limits, document, sources);
    }
  }

  lemma MatchFits(limits: Limits, document: Document, sources: seq<Source>)
    requires Consistent(Refs(document)) && SourcesMatch(SizesOf(Refs(document)), limits, sources)
    ensures SourcesFit(limits, document, sources)
  {
    var expected := SizesOf(Refs(document));
    ExpectedTotal(expected, limits, sources);
    forall s | s in sources
      ensures Refers(document, s.sha256, s.size) && ValidSha256(s.sha256) && s.size <= limits.maxArtifact
    {
      var i :| 0 <= i < |sources| && sources[i] == s;
      MatchedSource(limits, document, sources, i);
    }
    forall i, j | 0 <= i < j < |sources|
      ensures sources[i].sha256 != sources[j].sha256
    {
      MatchedSource(limits, document, sources, j);
    }
    forall h, n | Refers(document, h, n)
      ensures exists s :: s in sources && s.sha256 == h
    {
      SourceThere(limits, document, sources, h, n);
    }
  }

  lemma MatchedSource(limits: Limits, document: Document, sources: seq<Source>, i: nat)
    requires Consistent(Refs(document)) && SourcesMatch(SizesOf(Refs(document)), limits, sources) && i < |sources|
    ensures var s := sources[i]; Refers(document, s.sha256, s.size) && ValidSha256(s.sha256) && s.size <= limits.maxArtifact
    ensures forall j :: 0 <= j < i ==> sources[j].sha256 != sources[i].sha256
  {
    ExpectedMeans(document);
    assert SourceFault(SizesOf(Refs(document)), limits, sources, i).None?;
    assert !Repeated(sources, i);
  }

  lemma SourceThere(limits: Limits, document: Document, sources: seq<Source>, h: string, n: nat)
    requires Consistent(Refs(document)) && SourcesMatch(SizesOf(Refs(document)), limits, sources) && Refers(document, h, n)
    ensures exists s :: s in sources && s.sha256 == h
  {
    ExpectedMeans(document);
    SourcesAreExpected(SizesOf(Refs(document)), limits, sources);
    ByHashKeys(sources);
    assert ByHash(sources)[h] in sources && ByHash(sources)[h].sha256 == h;
  }

  lemma FitMatches(limits: Limits, document: Document, sources: seq<Source>)
    requires Consistent(Refs(document)) && SourcesFit(limits, document, sources)
    ensures SourcesMatch(SizesOf(Refs(document)), limits, sources)
  {
    var expected := SizesOf(Refs(document));
    ExpectedMeans(document);
    forall i | 0 <= i < |sources|
      ensures !Repeated(sources, i) && SourceFault(expected, limits, sources, i).None?
    {
      FitFaultless(limits, document, sources, i);
    }
    ByHashSize(sources);
    ByHashKeys(sources);
    assert ByHash(sources).Keys == expected.Keys by {
      forall h
        ensures h in ByHash(sources) <==> h in expected
      {
        if h in ByHash(sources) {
          assert Refers(document, h, ByHash(sources)[h].size);
        }
        if h in expected {
          assert Refers(document, h, expected[h]);
          var s :| s in sources && s.sha256 == h;
          var j :| 0 <= j < |sources| && sources[j] == s;
        }
      }
    }
    assert |expected| == |expected.Keys| == |ByHash(sources)|;
  }

  lemma FitFaultless(limits: Limits, document: Document, sources: seq<Source>, i: nat)
    requires Consistent(Refs(document)) && SourcesFit(limits, document, sources) && i < |sources|
    ensures !Repeated(sources, i) && SourceFault(SizesOf(Refs(document)), limits, sources, i).None?
  {
    ExpectedMeans(document);
    assert sources[i] in sources;
    assert Refers(document, sources[i].sha256, sources[i].size);
    PartOfTotal(sources, i);
  }

  lemma {:induction false} PartOfTotal(sources: seq<Source>, i: nat)
    requires i < |sources|
    ensures TotalSize(sources[..i]) + sources[i].size <= TotalSize(sources)
  {
    var n := |sources| - 1;
    if i < n {
      assert sources[..n][..i] == sources[..i];
      PartOfTotal(sources[..n], i);
    }
  }

  /** The total is the sum: of a source alone its size, of two lists the sum of both. */
  lemma {:induction false} TotalAdds(a: seq<Source>, b: seq<Source>)
    ensures TotalSize(a + b) == TotalSize(a) + TotalSize(b)
    ensures |a| == 1 ==> TotalSize(a) == a[0].size
  {
    if b == [] {
      assert a + b == a;
    } else {
      var n := |b| - 1;
      assert (a + b)[..|a| + n] == a + b[..n];
      TotalAdds(a, b[..n]);
    }
  }

  /** Exactly what makes an export possible, as far as it does not depend on the folder. */
  lemma ExportableExactly(platform: Platform, limits: Limits, document: Document, sources: seq<Source>)
    ensures Exportable(platform, limits, document, sources)
       <==> && LimitsUsable(limits)
            && document.format == "site.s9lab.profile-export" && document.version == 1 && platform.acceptable(document)
            && (forall h, m, n :: Refers(document, h, m) && Refers(document, h, n) ==> m == n)
            && SourcesFit(limits, document, sources)
            && (forall s :: s in sources ==> |s.content| == s.size && platform.sha256(s.content) == s.sha256)
            && |platform.encode(document)| <= limits.maxManifest
            && var file := platform.write(ExportedItems(platform, document, sources)); 0 < |file| <= limits.maxArchive
  {
    ExpectedMeans(document);
    if Consistent(Refs(document)) {
      FitMeansMatch(limits, document, sources);
    }
  }

  /** An export reports how many artifacts it wrote and their size, one for each source, and the file's size and hash. */
  lemma ExportReports(platform: Platform, limits: Limits, document: Document, sources: seq<Source>)
    requires Exportable(platform, limits, document, sources)
    ensures var summary := SummaryOf(platform, document, sources);
            var file := platform.write(ExportedItems(platform, document, sources));
            && summary.artifactCount == |sources| && summary.artifactCount + 1 == |ExportedItems(platform, document, sources)|
            && summary.totalArtifactBytes == TotalSize(sources) <= limits.maxTotal
            && summary.archiveSize == |file| <= limits.maxArchive && summary.archiveSha256 == platform.sha256(file)
  {
    ExportShaped(platform, document, sources);
    SourcesAreExpected(SizesOf(Refs(document)), limits, sources);
  }

  /** The default limits: 12289 entries, 8 MiB of manifest, 1 GiB an artifact, 8 GiB in all, a hundredfold compression. */
  lemma DefaultLimits()
    ensures DEFAULT_LIMITS == Limits(12289, 8388608, 1073741824, 8589934592, 8598323200, 100)
    ensures LimitsUsable(DEFAULT_LIMITS) && ValidLimits(DEFAULT_LIMITS) && WordLimits(DEFAULT_LIMITS)
  {
  }

  predicate LimitsUsable(limits: Limits)
  {
    && limits.maxEntries >= 1 && limits.maxManifest >= 1 && limits.maxArtifact >= 1 && limits.maxArchive >= 1
    && limits.maxRatio >= 1 && limits.maxTotal >= limits.maxArtifact
  }

  // ----- What an import stages ---------------------------------------------------------------------------------

  /** The document an importable archive holds, and the files its import stages. */
  lemma ImportStages(platform: Platform, limits: Limits, file: Bytes, h: string, n: nat)
    requires Importable(platform, limits, file)
    ensures var document := ImportedFrom(platform, limits, file).document;
            var staged := StagedFiles(platform.read(file).value.entries, ImportedFrom(platform, limits, file).artifacts.Keys);
            && "profile.json" in staged && platform.decode(staged["profile.json"]) == Some(document)
            && (Refers(document, h, n) ==>
                  "artifacts/" + h in staged && |staged["artifacts/" + h]| == n && platform.sha256(staged["artifacts/" + h]) == h)
  {
    var entries := platform.read(file).value.entries;
    var document := DocumentIn(platform, entries);
    ExpectedMeans(document);
    if Refers(document, h, n) {
      assert Delivers(platform, entries, h, SizesOf(Refs(document))[h]);
      assert ArtifactName(h) in (set k | k in SizesOf(Refs(document)).Keys :: ArtifactName(k));
    }
  }

  /** Nothing else is staged, and every staged file is an entry's content. */
  lemma ImportStagesOnly(platform: Platform, limits: Limits, file: Bytes, name: string)
    requires Importable(platform, limits, file)
    requires name in StagedFiles(platform.read(file).value.entries, ImportedFrom(platform, limits, file).artifacts.Keys)
    ensures name == "profile.json"
            || exists h, n :: Refers(ImportedFrom(platform, limits, file).document, h, n) && name == "artifacts/" + h
    ensures exists e :: e in platform.read(file).value.entries && e.name == name
                        && e.content == StagedFiles(platform.read(file).value.entries,
                                                    ImportedFrom(platform, limits, file).artifacts.Keys)[name]
  {
    var archive := platform.read(file).value;
    var expected := SizesOf(Refs(DocumentIn(platform, archive.entries)));
    ExpectedMeans(DocumentIn(platform, archive.entries));
    BoundExactly(platform.naming, limits, archive, expected);
    if name != MANIFEST_ENTRY {
      var h :| h in expected && name == ArtifactName(h);
      assert Refers(DocumentIn(platform, archive.entries), h, expected[h]);
    }
    var e := Found(archive.entries, name).value;
  }

  /** What is returned beside the files. */
  lemma ImportReports(platform: Platform, limits: Limits, file: Bytes)
    requires Importable(platform, limits, file)
    ensures var imported := ImportedFrom(platform, limits, file);
            && imported.archiveSha256 == platform.sha256(file)
            && (forall h, n :: Refers(imported.document, h, n) <==> h in imported.artifacts && imported.artifacts[h] == n)
            && imported.document.format == "site.s9lab.profile-export" && imported.document.version == 1
            && platform.acceptable(imported.document) && |imported.artifacts| <= 12288
            && LimitsUsable(limits) && 0 < |file| <= limits.maxArchive
  {
    ExpectedMeans(ImportedFrom(platform, limits, file).document);
  }

  /** Round trip, artifact by artifact: the bytes staged are the bytes of the source that was exported. */
  lemma RoundTripBytes(platform: Platform, limits: Limits, document: Document, sources: seq<Source>, h: string, n: nat)
    requires Faithful(platform) && WordLimits(limits) && Exportable(platform, limits, document, sources)
    requires Importable(platform, limits, platform.write(ExportedItems(platform, document, sources)))
    requires Refers(document, h, n)
    ensures var file := platform.write(ExportedItems(platform, document, sources));
            var imported := ImportedFrom(platform, limits, file);
            var staged := StagedFiles(platform.read(file).value.entries, imported.artifacts.Keys);
            && imported.document == document
            && "artifacts/" + h in staged
            && exists s :: s in sources && s.sha256 == h && s.size == n && staged["artifacts/" + h] == s.content
  {
    RoundTrip(platform, limits, document, sources);
    ExpectedMeans(document);
    SourceOf(platform, limits, document, sources, h, n);
    SourcesAreExpected(SizesOf(Refs(document)), limits, sources);
    var s := ByHash(sources)[h];
    assert s in sources && s.sha256 == h && s.size == n;
  }
}
