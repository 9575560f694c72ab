/** Importing what was exported gives the profile back. */
module ProfileRoundTrip {
  import opened Wrappers
  import opened OrderedMaps
  import opened Journal
  import opened CopyLoop
  import opened ProfileArchive
  import opened ProfileBinding
  import opened ProfileExport
  import opened ProfileImport

  // ----- What is assumed of the borrowed formats ----------------------------------------------------------

  /** The document format is its own inverse, and no document is empty text. */
  ghost predicate LosslessDocuments(platform: Platform)
  {
    forall d :: platform.decode(platform.encode(d)) == Some(d) && platform.encode(d) != []
  }

  /** The manifest's and every artifact's name is canonical, and their keys differ. */
  ghost predicate CanonicalNames(naming: Naming)
  {
    && naming.canonical(MANIFEST_ENTRY)
    && (forall h :: ValidSha256(h) ==> naming.canonical(ArtifactName(h)) && naming.key(ArtifactName(h)) != naming.key(MANIFEST_ENTRY))
    && (forall g, h :: ValidSha256(g) && ValidSha256(h) && naming.key(ArtifactName(g)) == naming.key(ArtifactName(h)) ==> g == h)
  }

  /** Regular file, readable by all: the mode every entry is written with. */
  const WRITTEN_MODE := 0x81A4

  function WrittenEntry(platform: Platform, items: seq<Item>, i: nat): Entry
    requires i < |items|
  {
    Entry(items[i].name, false, false, false, platform.extra(items, i), Some(WRITTEN_MODE), Stored, |items[i].bytes|,
          |items[i].bytes|, items[i].bytes)
  }

  function WrittenEntries(platform: Platform, items: seq<Item>): seq<Entry>
  {
    seq(|items|, i requires 0 <= i < |items| => WrittenEntry(platform, items, i))
  }

  predicate DistinctItems(items: seq<Item>)
  {
    forall i, j :: 0 <= i < j < |items| ==> items[i].name != items[j].name
  }

  function WrittenArchive(platform: Platform, items: seq<Item>): Archive
  {
    Archive(0, false, platform.zip64(items), WrittenEntries(platform, items))
  }

  /** Reading a written archive gives its entries back, stored and unadorned but for what the writer adds. */
  ghost predicate FaithfulZip(platform: Platform)
  {
    forall items :: DistinctItems(items) ==> platform.read(platform.write(items)) == Some(WrittenArchive(platform, items))
  }

  ghost predicate Faithful(platform: Platform)
  {
    LosslessDocuments(platform) && CanonicalNames(platform.naming) && FaithfulZip(platform)
  }

  predicate NoExtensions(platform: Platform, items: seq<Item>)
  {
    forall i :: 0 <= i < |items| ==> !platform.extra(items, i)
  }

  /** The writer added nothing the inspection refuses. */
  predicate Unadorned(platform: Platform, items: seq<Item>)
  {
    !platform.zip64(items) && NoExtensions(platform, items)
  }

  // ----- The shape of an export --------------------------------------------------------------------------------

  lemma {:induction false} ArtifactItemsAt(sources: map<string, Source>, hashes: seq<string>)
    requires forall h :: h in hashes ==> h in sources
    ensures |ArtifactItems(sources, hashes)| == |hashes|
    ensures forall i :: 0 <= i < |hashes| ==>
              ArtifactItems(sources, hashes)[i] == Item(ArtifactName(hashes[i]), sources[hashes[i]].content)
  {
    if hashes != [] {
      ArtifactItemsAt(sources, hashes[1..]);
    }
  }

  /** An export as a list of hashes with their bytes. */
  ghost predicate Shaped(items: seq<Item>, manifest: Bytes, hashes: seq<string>, sources: map<string, Source>)
  {
    && (forall h :: h in hashes ==> h in sources)
    && |items| == |hashes| + 1 && items[0] == Item(MANIFEST_ENTRY, manifest)
    && (forall i :: 1 <= i < |items| ==> items[i] == Item(ArtifactName(hashes[i - 1]), sources[hashes[i - 1]].content))
    && (forall i, j :: 0 <= i < j < |hashes| ==> hashes[i] != hashes[j])
  }

  lemma ExportShaped(platform: Platform, document: Document, sources: seq<Source>)
    ensures Shaped(ExportedItems(platform, document, sources), platform.encode(document),
                   InOrder(ByHash(sources).Keys), ByHash(sources))
  {
    var hashes := InOrder(ByHash(sources).Keys);
    InOrderDistinct(ByHash(sources).Keys);
    ArtifactItemsAt(ByHash(sources), hashes);
  }

  lemma NamesApart(g: string, h: string)
    ensures ArtifactName(g) != MANIFEST_ENTRY
    ensures ArtifactName(g) == ArtifactName(h) ==> g == h
  {
    assert ArtifactName(g)[0] == 'a' && MANIFEST_ENTRY[0] == 'p';
    assert ArtifactName(g)[|ARTIFACT_PREFIX|..] == g && ArtifactName(h)[|ARTIFACT_PREFIX|..] == h;
  }

  lemma ExportDistinct(platform: Platform, document: Document, sources: seq<Source>)
    ensures DistinctItems(ExportedItems(platform, document, sources))
  {
    var items, hashes := ExportedItems(platform, document, sources), InOrder(ByHash(sources).Keys);
    ExportShaped(platform, document, sources);
    forall i, j | 0 <= i < j < |items|
      ensures items[i].name != items[j].name
    {
      NamesApart(hashes[j - 1], if i > 0 then hashes[i - 1] else "");
    }
  }

  // ----- Its entries pass the inspection ---------------------------------------------------------------------------

  /** The hashes are valid and the bytes are of the declared, permitted sizes. */
  ghost predicate Sized(limits: Limits, expected: map<string, nat>, sources: map<string, Source>, hashes: seq<string>)
  {
    forall h :: h in hashes ==>
      ValidSha256(h) && h in expected && h in sources && |sources[h].content| == expected[h] <= limits.maxArtifact
  }

  lemma {:induction false} SumOverConcat(sizes: map<string, nat>, a: seq<string>, b: seq<string>)
    requires forall h :: h in a + b ==> h in sizes
    ensures (forall h :: h in a ==> h in sizes) && (forall h :: h in b ==> h in sizes)
    ensures SumOver(sizes, a + b) == SumOver(sizes, a) + SumOver(sizes, b)
  {
    forall h | h in a || h in b
      ensures h in a + b
    {
    }
    if a == [] {
      assert a + b == b;
    } else {
      assert (a + b)[1..] == a[1..] + b;
      SumOverConcat(sizes, a[1..], b);
    }
  }

  /** The running total is the manifest's size and those of the first hashes. */
  lemma {:induction false} TotalUpTo(platform: Platform, items: seq<Item>, manifest: Bytes, hashes: seq<string>,
                                     limits: Limits, expected: map<string, nat>, sources: map<string, Source>, n: nat)
    requires Shaped(items, manifest, hashes, sources) && Sized(limits, expected, sources, hashes) && n <= |hashes|
    ensures SumSizes(WrittenEntries(platform, items)[..n + 1]) == |manifest| + SumOver(expected, hashes[..n])
  {
    var entries := WrittenEntries(platform, items);
    TakeOne(entries, n);
    if n == 0 {
      assert entries[..1][..0] == [];
    } else {
      TotalUpTo(platform, items, manifest, hashes, limits, expected, sources, n - 1);
      TakeOne(hashes, n - 1);
      SumOverConcat(expected, hashes[..n - 1], [hashes[n - 1]]);
      assert hashes[n - 1] in hashes;
    }
  }

  lemma TotalFits(platform: Platform, items: seq<Item>, manifest: Bytes, hashes: seq<string>,
                  limits: Limits, expected: map<string, nat>, sources: map<string, Source>, i: nat)
    requires Shaped(items, manifest, hashes, sources) && Sized(limits, expected, sources, hashes) && i < |items|
    requires |manifest| <= limits.maxManifest && SumOver(expected, hashes) <= limits.maxTotal
    ensures SumSizes(WrittenEntries(platform, items)[..i]) + |items[i].bytes| <= limits.maxTotal + limits.maxManifest
  {
    var entries := WrittenEntries(platform, items);
    TotalUpTo(platform, items, manifest, hashes, limits, expected, sources, i);
    TakeOne(entries, i);
    assert hashes == hashes[..i] + hashes[i..];
    SumOverConcat(expected, hashes[..i], hashes[i..]);
  }

  lemma ManifestHeader(naming: Naming, e: Entry)
    requires CanonicalNames(naming) && e.name == MANIFEST_ENTRY && PlainHeader(e)
    ensures HeaderFault(naming, e).None?
  {
  }

  lemma ArtifactHeader(naming: Naming, e: Entry, h: string)
    requires CanonicalNames(naming) && ValidSha256(h) && e.name == ArtifactName(h) && PlainHeader(e)
    ensures HeaderFault(naming, e).None?
  {
    assert e.name[|e.name| - 1] == h[63];
    forall i | 0 <= i < |e.name|
      ensures e.name[i] < 128 as char && e.name[i] != '\\'
    {
      if i >= 10 {
        assert e.name[i] == h[i - 10];
      }
    }
  }

  /** A header as the exporter writes it, without an extension. */
  predicate PlainHeader(e: Entry)
  {
    !e.directory && !e.encrypted && !e.comment && !e.extra && e.mode == Some(WRITTEN_MODE) && e.compression == Stored
  }

  lemma NeverTooDense(size: nat, ratio: nat)
    requires ratio > 0 && size <= U64_MAX
    ensures size <= SaturatingMul(size, ratio)
  {
    TimesAtLeastOne(size, ratio);
  }

  lemma TimesAtLeastOne(size: nat, ratio: nat)
    requires ratio > 0
    ensures size * ratio >= size
  {
    assert size * ratio == size * (ratio - 1) + size;
  }

  lemma WrittenBody(limits: Limits, e: Entry, kind: EntryKind)
    requires ValidLimits(limits) && Classify(e.name) == Success(kind)
    requires e.compressed == e.size <= Maximum(limits, kind) && e.size <= U64_MAX
    ensures BodyFault(limits, e).None?
  {
    NeverTooDense(e.size, limits.maxRatio);
  }

  lemma KeysApart(platform: Platform, items: seq<Item>, manifest: Bytes, hashes: seq<string>, sources: map<string, Source>,
                  i: nat)
    requires CanonicalNames(platform.naming) && Shaped(items, manifest, hashes, sources) && i < |items|
    requires forall h :: h in hashes ==> ValidSha256(h)
    ensures !Collides(platform.naming, WrittenEntries(platform, items), i)
  {
    forall j | 0 <= j < i
      ensures platform.naming.key(items[j].name) != platform.naming.key(items[i].name)
    {
      assert hashes[i - 1] in hashes;
      if j > 0 {
        assert hashes[j - 1] in hashes && hashes[j - 1] != hashes[i - 1];
      }
    }
  }

  lemma WrittenFaultless(platform: Platform, items: seq<Item>, manifest: Bytes, hashes: seq<string>,
                         limits: Limits, expected: map<string, nat>, sources: map<string, Source>, i: nat)
    requires CanonicalNames(platform.naming) && ValidLimits(limits) && WordLimits(limits)
    requires Shaped(items, manifest, hashes, sources) && Sized(limits, expected, sources, hashes) && i < |items|
    requires |manifest| <= limits.maxManifest && SumOver(expected, hashes) <= limits.maxTotal
    requires !platform.extra(items, i)
    ensures EntryFault(platform.naming, limits, WrittenEntries(platform, items), i).None?
  {
    var e := WrittenEntries(platform, items)[i];
    KeysApart(platform, items, manifest, hashes, sources, i);
    TotalFits(platform, items, manifest, hashes, limits, expected, sources, i);
    if i == 0 {
      ManifestHeader(platform.naming, e);
      WrittenBody(limits, e, Manifest);
    } else {
      var h := hashes[i - 1];
      assert h in hashes;
      ArtifactHeader(platform.naming, e, h);
      ClassifyMeaning(e.name, h);
      WrittenBody(limits, e, Artifact(h));
    }
  }

  // ----- The round trip -----------------------------------------------------------------------------------------------

  /** What an exportable profile gives: hashes, sizes, sums. */
  lemma ExportFacts(platform: Platform, limits: Limits, document: Document, sources: seq<Source>)
    requires Exportable(platform, limits, document, sources)
    ensures var expected, hashes := SizesOf(Refs(document)), InOrder(ByHash(sources).Keys);
            && ByHash(sources).Keys == expected.Keys
            && Sized(limits, expected, ByHash(sources), hashes)
            && SumOver(expected, hashes) <= limits.maxTotal
            && forall h :: h in expected ==> platform.sha256(ByHash(sources)[h].content) == h
  {
    var expected := SizesOf(Refs(document));
    SourcesAreExpected(expected, limits, sources);
    PreparedFacts(platform, limits, expected, sources);
    forall h | h in expected
      ensures Genuine(platform, ByHash(sources)[h])
    {
      assert GenuineMap(platform, ByHash(sources));
    }
  }

  lemma ExtensionRejected(platform: Platform, limits: Limits, items: seq<Item>)
    requires FaultlessUpTo(platform.naming, limits, WrittenEntries(platform, items), |items|)
    ensures NoExtensions(platform, items)
  {
    forall i | 0 <= i < |items|
      ensures !platform.extra(items, i)
    {
      assert EntryFault(platform.naming, limits, WrittenEntries(platform, items), i).None?;
      assert !WrittenEntries(platform, items)[i].extra;
    }
  }

  lemma PlainFaultless(platform: Platform, items: seq<Item>, manifest: Bytes, hashes: seq<string>,
                       limits: Limits, expected: map<string, nat>, sources: map<string, Source>)
    requires CanonicalNames(platform.naming) && ValidLimits(limits) && WordLimits(limits)
    requires Shaped(items, manifest, hashes, sources) && Sized(limits, expected, sources, hashes)
    requires |manifest| <= limits.maxManifest && SumOver(expected, hashes) <= limits.maxTotal
    requires NoExtensions(platform, items)
    ensures FaultlessUpTo(platform.naming, limits, WrittenEntries(platform, items), |items|)
  {
    forall i | 0 <= i < |items|
      ensures EntryFault(platform.naming, limits, WrittenEntries(platform, items), i).None?
    {
      WrittenFaultless(platform, items, manifest, hashes, limits, expected, sources, i);
    }
  }

  lemma ManifestWritten(platform: Platform, items: seq<Item>)
    requires items != [] && items[0].name == MANIFEST_ENTRY
    ensures HasManifest(WrittenEntries(platform, items))
  {
    assert WrittenEntries(platform, items)[0] in WrittenEntries(platform, items);
  }

  lemma WrittenInspectable(platform: Platform, limits: Limits, document: Document, sources: seq<Source>)
    requires Exportable(platform, limits, document, sources) && CanonicalNames(platform.naming) && WordLimits(limits)
    ensures var items := ExportedItems(platform, document, sources);
            Inspectable(platform.naming, limits, WrittenArchive(platform, items))
            <==> |items| <= limits.maxEntries && Unadorned(platform, items)
  {
    var items, hashes := ExportedItems(platform, document, sources), InOrder(ByHash(sources).Keys);
    ExportFacts(platform, limits, document, sources);
    ExportShaped(platform, document, sources);
    WrittenInspects(platform, items, platform.encode(document), hashes, limits, SizesOf(Refs(document)), ByHash(sources));
  }

  lemma WrittenInspects(platform: Platform, items: seq<Item>, manifest: Bytes, hashes: seq<string>,
                        limits: Limits, expected: map<string, nat>, sources: map<string, Source>)
    requires CanonicalNames(platform.naming) && ValidLimits(limits) && WordLimits(limits)
    requires Shaped(items, manifest, hashes, sources) && Sized(limits, expected, sources, hashes)
    requires |manifest| <= limits.maxManifest && SumOver(expected, hashes) <= limits.maxTotal
    ensures Inspectable(platform.naming, limits, WrittenArchive(platform, items))
            <==> |items| <= limits.maxEntries && Unadorned(platform, items)
  {
    ManifestWritten(platform, items);
    if NoExtensions(platform, items) {
      PlainFaultless(platform, items, manifest, hashes, limits, expected, sources);
    } else if FaultlessUpTo(platform.naming, limits, WrittenEntries(platform, items), |items|) {
      ExtensionRejected(platform, limits, items);
    }
  }

  /** Every written entry is found again under its name. */
  lemma WrittenFound(platform: Platform, items: seq<Item>, i: nat)
    requires i < |items| && CleanNames(WrittenEntries(platform, items))
    ensures Found(WrittenEntries(platform, items), items[i].name).Some?
    ensures ContentOf(WrittenEntries(platform, items), items[i].name) == items[i].bytes
  {
    var entries := WrittenEntries(platform, items);
    assert entries[i] in entries;
    FoundAt(entries, entries[i]);
  }

  lemma WrittenArtifact(platform: Platform, items: seq<Item>, manifest: Bytes, hashes: seq<string>,
                        sources: map<string, Source>, h: string)
    requires Shaped(items, manifest, hashes, sources) && h in hashes
    requires CleanNames(WrittenEntries(platform, items))
    ensures Found(WrittenEntries(platform, items), ArtifactName(h)).Some?
    ensures Found(WrittenEntries(platform, items), ArtifactName(h)).value.size == |sources[h].content|
    ensures ContentOf(WrittenEntries(platform, items), ArtifactName(h)) == sources[h].content
  {
    var entries := WrittenEntries(platform, items);
    var j :| 0 <= j < |hashes| && hashes[j] == h;
    WrittenFound(platform, items, j + 1);
    assert entries[j + 1] in entries;
    FoundAt(entries, entries[j + 1]);
  }

  lemma WrittenBound(platform: Platform, items: seq<Item>, manifest: Bytes, hashes: seq<string>,
                     limits: Limits, expected: map<string, nat>, sources: map<string, Source>)
    requires Shaped(items, manifest, hashes, sources) && Sized(limits, expected, sources, hashes)
    requires CleanNames(WrittenEntries(platform, items)) && forall h :: h in expected <==> h in hashes
    ensures Bound(Inventory(WrittenEntries(platform, items)), expected)
  {
    var entries := WrittenEntries(platform, items);
    forall h | h in expected
      ensures ArtifactName(h) in Inventory(entries)
      ensures Inventory(entries)[ArtifactName(h)] == Inventoried(Artifact(h), expected[h])
    {
      ExpectedIsWritten(platform, items, manifest, hashes, sources, h);
    }
    forall n | n in Inventory(entries) && Inventory(entries)[n].kind.Artifact?
      ensures Inventory(entries)[n].kind.sha256 in expected
    {
      WrittenIsExpected(platform, items, manifest, hashes, sources, n);
    }
  }

  lemma ExpectedIsWritten(platform: Platform, items: seq<Item>, manifest: Bytes, hashes: seq<string>,
                          sources: map<string, Source>, h: string)
    requires Shaped(items, manifest, hashes, sources) && h in hashes && ValidSha256(h)
    requires CleanNames(WrittenEntries(platform, items))
    ensures ArtifactName(h) in Inventory(WrittenEntries(platform, items))
    ensures Inventory(WrittenEntries(platform, items))[ArtifactName(h)] == Inventoried(Artifact(h), |sources[h].content|)
  {
    WrittenArtifact(platform, items, manifest, hashes, sources, h);
    ClassifyMeaning(ArtifactName(h), h);
    InventoryMeaning(WrittenEntries(platform, items));
  }

  lemma WrittenIsExpected(platform: Platform, items: seq<Item>, manifest: Bytes, hashes: seq<string>,
                          sources: map<string, Source>, n: string)
    requires Shaped(items, manifest, hashes, sources) && CleanNames(WrittenEntries(platform, items))
    requires n in Inventory(WrittenEntries(platform, items))
    requires Inventory(WrittenEntries(platform, items))[n].kind.Artifact?
    ensures Inventory(WrittenEntries(platform, items))[n].kind.sha256 in hashes
  {
    var entries := WrittenEntries(platform, items);
    InventoryMeaning(entries);
    InventoryWellNamed(entries);
    var e :| e in entries && e.name == n;
    var i :| 0 <= i < |entries| && entries[i] == e;
    ItemHash(items, manifest, hashes, sources, i, Inventory(entries)[n].kind.sha256);
  }

  lemma ItemHash(items: seq<Item>, manifest: Bytes, hashes: seq<string>, sources: map<string, Source>, i: nat, h: string)
    requires Shaped(items, manifest, hashes, sources) && i < |items| && items[i].name == ArtifactName(h)
    ensures h in hashes
  {
    assert ArtifactName(h)[1] == 'r' && MANIFEST_ENTRY[1] == 'r';
    assert ArtifactName(h)[0] == 'a' && MANIFEST_ENTRY[0] == 'p';
    assert ArtifactName(h)[|ARTIFACT_PREFIX|..] == h;
    assert ArtifactName(hashes[i - 1])[|ARTIFACT_PREFIX|..] == hashes[i - 1];
    assert hashes[i - 1] in hashes;
  }

  /** What an import of an exported archive reads, once the archive passes the inspection. */
  lemma WrittenReadsBack(platform: Platform, limits: Limits, document: Document, sources: seq<Source>)
    requires Exportable(platform, limits, document, sources) && LosslessDocuments(platform)
    requires Inspectable(platform.naming, limits, WrittenArchive(platform, ExportedItems(platform, document, sources)))
    ensures var entries, expected := WrittenEntries(platform, ExportedItems(platform, document, sources)), SizesOf(Refs(document));
            && Found(entries, MANIFEST_ENTRY).Some?
            && ManifestReadable(limits, Found(entries, MANIFEST_ENTRY).value)
            && ContentOf(entries, MANIFEST_ENTRY) == platform.encode(document)
            && Bound(Inventory(entries), expected) && AllDelivered(platform, entries, expected)
            && ByHash(sources).Keys == expected.Keys
            && forall h :: h in expected ==> ContentOf(entries, ArtifactName(h)) == ByHash(sources)[h].content
  {
    var items, hashes := ExportedItems(platform, document, sources), InOrder(ByHash(sources).Keys);
    var entries, expected := WrittenEntries(platform, items), SizesOf(Refs(document));
    ExportShaped(platform, document, sources);
    ExportFacts(platform, limits, document, sources);
    InspectedNames(platform.naming, limits, entries);
    WrittenFound(platform, items, 0);
    WrittenBound(platform, items, platform.encode(document), hashes, limits, expected, ByHash(sources));
    forall h | h in expected
      ensures ContentOf(entries, ArtifactName(h)) == ByHash(sources)[h].content && Delivers(platform, entries, h, expected[h])
    {
      WrittenArtifact(platform, items, platform.encode(document), hashes, ByHash(sources), h);
    }
  }

  /**
   * The round trip. An exported archive can be imported exactly if its entries are no more than the
   * limit and the ZIP writer added neither a header extension to an entry nor a ZIP64 record; then
   * the import yields the same document and stages, for each hash, the same bytes.
   */
  lemma RoundTrip(platform: Platform, limits: Limits, document: Document, sources: seq<Source>)
    requires Faithful(platform) && WordLimits(limits) && Exportable(platform, limits, document, sources)
    ensures var items := ExportedItems(platform, document, sources);
            Importable(platform, limits, platform.write(items))
            <==> |SizesOf(Refs(document))| + 1 <= limits.maxEntries && Unadorned(platform, items)
    ensures var file := platform.write(ExportedItems(platform, document, sources));
            Importable(platform, limits, file) ==>
              && ImportedFrom(platform, limits, file)
                 == Imported(document, platform.sha256(file), SizesOf(Refs(document)))
              && var staged := StagedFiles(platform.read(file).value.entries, SizesOf(Refs(document)).Keys);
                 && staged[MANIFEST_ENTRY] == platform.encode(document)
                 && forall h :: h in ByHash(sources) ==>
                      ArtifactName(h) in staged && staged[ArtifactName(h)] == ByHash(sources)[h].content
  {
    var items := ExportedItems(platform, document, sources);
    var archive := WrittenArchive(platform, items);
    ExportDistinct(platform, document, sources);
    assert platform.read(platform.write(items)) == Some(archive);
    ExportShaped(platform, document, sources);
    ExportFacts(platform, limits, document, sources);
    assert |InOrder(ByHash(sources).Keys)| == |SizesOf(Refs(document))|;
    WrittenInspectable(platform, limits, document, sources);
    if Inspectable(platform.naming, limits, archive) {
      WrittenReadsBack(platform, limits, document, sources);
    }
  }

  /** Under the default limits only what the ZIP writer added can keep an export from being imported. */
  lemma DefaultRoundTrip(platform: Platform, document: Document, sources: seq<Source>)
    requires Faithful(platform) && Exportable(platform, DEFAULT_LIMITS, document, sources)
    ensures var items := ExportedItems(platform, document, sources);
            Importable(platform, DEFAULT_LIMITS, platform.write(items)) <==> Unadorned(platform, items)
  {
    RoundTrip(platform, DEFAULT_LIMITS, document, sources);
  }
}
