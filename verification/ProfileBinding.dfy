/** The artifacts a document expects, and how sources and archive entries are bound to them. */
module ProfileBinding {
  import opened Wrappers
  import opened Journal
  import opened CopyLoop
  import opened ProfileArchive

  datatype ArtifactRef = ArtifactRef(sha256: string, size: nat)

  /** The resolved content of a profile, as far as artifacts go. */
  datatype Resolved = Resolved(items: seq<ArtifactRef>, overrides: seq<ArtifactRef>)

  /** A portable profile; `description` is everything the archive code only carries along. */
  datatype Document = Document(format: string, version: nat, description: string, resolved: Option<Resolved>)

  function Refs(document: Document): seq<ArtifactRef>
  {
    match document.resolved
    case None => []
    case Some(resolved) => resolved.items + resolved.overrides
  }

  // ----- Expected artifacts --------------------------------------------------------------------------------

  function SizesOf(refs: seq<ArtifactRef>): map<string, nat>
  {
    if refs == [] then map[]
    else SizesOf(refs[..|refs| - 1])[refs[|refs| - 1].sha256 := refs[|refs| - 1].size]
  }

  /** One hash, one size. */
  predicate Consistent(refs: seq<ArtifactRef>)
  {
    forall i, j :: 0 <= i < j < |refs| && refs[i].sha256 == refs[j].sha256 ==> refs[i].size == refs[j].size
  }

  lemma {:induction false} SizesMeaning(refs: seq<ArtifactRef>)
    requires Consistent(refs)
    ensures forall ref :: ref in refs ==> ref.sha256 in SizesOf(refs) && SizesOf(refs)[ref.sha256] == ref.size
    ensures forall h :: h in SizesOf(refs) ==> ArtifactRef(h, SizesOf(refs)[h]) in refs
  {
    if refs != [] {
      var n := |refs| - 1;
      SizesMeaning(refs[..n]);
      assert refs == refs[..n] + [refs[n]];
      forall ref | ref in refs[..n]
        ensures ref.sha256 == refs[n].sha256 ==> ref.size == refs[n].size
      {
        var i :| 0 <= i < n && refs[i] == ref;
      }
    }
  }

  /** The next reference conflicts exactly when its hash is already there with another size. */
  lemma NextConsistent(refs: seq<ArtifactRef>, i: nat)
    requires i < |refs| && Consistent(refs[..i])
    ensures var sizes := SizesOf(refs[..i]);
            Consistent(refs[..i + 1]) <==> !(refs[i].sha256 in sizes && sizes[refs[i].sha256] != refs[i].size)
    ensures SizesOf(refs[..i + 1]) == SizesOf(refs[..i])[refs[i].sha256 := refs[i].size]
  {
    SizesMeaning(refs[..i]);
    TakeOne(refs, i);
    var sizes := SizesOf(refs[..i]);
    if refs[i].sha256 in sizes && sizes[refs[i].sha256] != refs[i].size {
      var ref := ArtifactRef(refs[i].sha256, sizes[refs[i].sha256]);
      var j :| 0 <= j < i && refs[..i][j] == ref;
      assert refs[..i + 1][j] == ref && refs[..i + 1][i] == refs[i];
    } else {
      forall j | 0 <= j < i && refs[j].sha256 == refs[i].sha256
        ensures refs[j].size == refs[i].size
      {
        assert refs[j] in refs[..i];
      }
    }
  }

  lemma ConflictStays(refs: seq<ArtifactRef>, n: nat)
    requires n <= |refs| && !Consistent(refs[..n])
    ensures !Consistent(refs)
  {
  }

  /** The document names this hash with this size, for an item or for an override. */
  predicate Refers(document: Document, h: string, size: nat)
  {
    && document.resolved.Some?
    && (ArtifactRef(h, size) in document.resolved.value.items || ArtifactRef(h, size) in document.resolved.value.overrides)
  }

  /** Expected are exactly the artifacts of all items and all overrides. */
  lemma ExpectedMeans(document: Document)
    ensures Consistent(Refs(document)) <==> forall h, m, n :: Refers(document, h, m) && Refers(document, h, n) ==> m == n
    ensures Consistent(Refs(document)) ==>
              forall h, n :: Refers(document, h, n) <==> h in SizesOf(Refs(document)) && SizesOf(Refs(document))[h] == n
  {
    var refs := Refs(document);
    forall h, n
      ensures Refers(document, h, n) <==> ArtifactRef(h, n) in refs
    {
    }
    if Consistent(refs) {
      SizesMeaning(refs);
      forall h, n
        ensures Refers(document, h, n) <==> h in SizesOf(refs) && SizesOf(refs)[h] == n
      {
        assert ArtifactRef(h, n) in refs <==> h in SizesOf(refs) && SizesOf(refs)[h] == n;
      }
    } else {
      var i, j :| 0 <= i < j < |refs| && refs[i].sha256 == refs[j].sha256 && refs[i].size != refs[j].size;
      assert refs[i] == ArtifactRef(refs[i].sha256, refs[i].size) && refs[j] == ArtifactRef(refs[i].sha256, refs[j].size);
      assert Refers(document, refs[i].sha256, refs[i].size) && Refers(document, refs[i].sha256, refs[j].size);
    }
  }

  /** Hash by hash, items first and then overrides. */
  method ExpectedArtifacts(document: Document) returns (r: Result<map<string, nat>, ArchiveError>)
    ensures r == Failure(ArtifactIdentityConflict) <==> !Consistent(Refs(document))
    ensures r.Success? <==> Consistent(Refs(document)) && |SizesOf(Refs(document))| <= MAX_PROFILE_ARTIFACTS
    ensures r.Success? ==> r.value == SizesOf(Refs(document))
    ensures r.Failure? ==> r.error == ArtifactIdentityConflict || r.error == ArtifactCountInvalid
    ensures r.Success? ==> forall h, n :: Refers(document, h, n) <==> h in r.value && r.value[h] == n
    ensures r == Failure(ArtifactIdentityConflict) <==>
            exists h, m, n :: m != n && Refers(document, h, m) && Refers(document, h, n)
  {
    ExpectedMeans(document);
    var refs := Refs(document);
    var expected: map<string, nat> := map[];
    for i := 0 to |refs|
      invariant Consistent(refs[..i]) && expected == SizesOf(refs[..i])
    {
      NextConsistent(refs, i);
      if refs[i].sha256 in expected && expected[refs[i].sha256] != refs[i].size {
        ConflictStays(refs, i + 1);
        return Failure(ArtifactIdentityConflict);
      }
      expected := expected[refs[i].sha256 := refs[i].size];
    }
    assert refs[..|refs|] == refs;
    if |expected| > MAX_PROFILE_ARTIFACTS {
      return Failure(ArtifactCountInvalid);
    }
    return Success(expected);
  }

  // ----- Sources -------------------------------------------------------------------------------------------------

  /** A file offered for export: what it claims to be, and its bytes. */
  datatype Source = Source(sha256: string, size: nat, content: Bytes)

  function TotalSize(sources: seq<Source>): nat
  {
    if sources == [] then 0 else TotalSize(sources[..|sources| - 1]) + sources[|sources| - 1].size
  }

  predicate Repeated(sources: seq<Source>, i: nat)
    requires i < |sources|
  {
    exists j :: 0 <= j < i && sources[j].sha256 == sources[i].sha256
  }

  /** The first thing wrong with the i-th source. */
  function SourceFault(expected: map<string, nat>, limits: Limits, sources: seq<Source>, i: nat): Option<ArchiveError>
    requires i < |sources|
  {
    var s := sources[i];
    if !ValidSha256(s.sha256) then Some(HashInvalid)
    else if s.sha256 !in expected then Some(SourceUnexpected)
    else if s.size != expected[s.sha256] then Some(SourceSizeMismatch)
    else if s.size > limits.maxArtifact then Some(ArtifactSizeInvalid)
    else if Repeated(sources, i) then Some(SourceDuplicate)
    else if TotalSize(sources[..i]) + s.size > U64_MAX then Some(SizeOverflowed)
    else None
  }

  predicate SourcesFaultless(expected: map<string, nat>, limits: Limits, sources: seq<Source>, n: nat)
    requires n <= |sources|
  {
    forall i :: 0 <= i < n ==> SourceFault(expected, limits, sources, i).None?
  }

  predicate SourcesMatch(expected: map<string, nat>, limits: Limits, sources: seq<Source>)
  {
    && |sources| == |expected| <= MAX_PROFILE_ARTIFACTS
    && SourcesFaultless(expected, limits, sources, |sources|)
    && TotalSize(sources) <= limits.maxTotal
  }

  ghost predicate IsSourceFault(expected: map<string, nat>, limits: Limits, sources: seq<Source>, error: ArchiveError)
  {
    if |sources| != |expected| || |sources| > MAX_PROFILE_ARTIFACTS then error == SourceCountMismatch
    else if SourcesFaultless(expected, limits, sources, |sources|) then error == TotalTooLarge
    else exists i :: 0 <= i < |sources| && SourcesFaultless(expected, limits, sources, i)
                     && SourceFault(expected, limits, sources, i) == Some(error)
  }

  function ByHash(sources: seq<Source>): map<string, Source>
  {
    if sources == [] then map[]
    else ByHash(sources[..|sources| - 1])[sources[|sources| - 1].sha256 := sources[|sources| - 1]]
  }

  lemma {:induction false} ByHashKeys(sources: seq<Source>)
    ensures forall h :: h in ByHash(sources) <==> exists j :: 0 <= j < |sources| && sources[j].sha256 == h
    ensures forall h :: h in ByHash(sources) ==> ByHash(sources)[h] in sources && ByHash(sources)[h].sha256 == h
  {
    if sources != [] {
      var n := |sources| - 1;
      ByHashKeys(sources[..n]);
      assert sources == sources[..n] + [sources[n]];
      forall h
        ensures h in ByHash(sources) <==> exists j :: 0 <= j < |sources| && sources[j].sha256 == h
      {
        if h in ByHash(sources[..n]) {
          var j :| 0 <= j < n && sources[..n][j].sha256 == h;
          assert sources[j].sha256 == h;
        }
        if j :| 0 <= j < n && sources[j].sha256 == h {
          assert sources[..n][j].sha256 == h;
        }
      }
    }
  }

  /** Checks one source against the ones before it. */
  method CheckSource(expected: map<string, nat>, limits: Limits, sources: seq<Source>, i: nat,
                     byHash: map<string, Source>, total: nat)
    returns (fault: Option<ArchiveError>)
    requires i < |sources| && byHash == ByHash(sources[..i]) && total == TotalSize(sources[..i])
    ensures fault == SourceFault(expected, limits, sources, i)
  {
    var s := sources[i];
    ByHashKeys(sources[..i]);
    assert s.sha256 in byHash <==> Repeated(sources, i);
    if !ValidSha256(s.sha256) {
      return Some(HashInvalid);
    }
    if s.sha256 !in expected {
      return Some(SourceUnexpected);
    }
    if s.size != expected[s.sha256] {
      return Some(SourceSizeMismatch);
    }
    if s.size > limits.maxArtifact {
      return Some(ArtifactSizeInvalid);
    }
    if s.sha256 in byHash {
      return Some(SourceDuplicate);
    }
    return if total + s.size > U64_MAX then Some(SizeOverflowed) else None;
  }

  method ValidateArtifactSources(expected: map<string, nat>, sources: seq<Source>, limits: Limits)
    returns (r: Result<map<string, Source>, ArchiveError>)
    ensures r.Success? <==> SourcesMatch(expected, limits, sources)
    ensures r.Success? ==> r.value == ByHash(sources)
    ensures r.Failure? ==> IsSourceFault(expected, limits, sources, r.error)
  {
    if |sources| != |expected| || |sources| > MAX_PROFILE_ARTIFACTS {
      return Failure(SourceCountMismatch);
    }
    var byHash: map<string, Source> := map[];
    var total := 0;
    for i := 0 to |sources|
      invariant SourcesFaultless(expected, limits, sources, i)
      invariant byHash == ByHash(sources[..i]) && total == TotalSize(sources[..i])
    {
      var s := sources[i];
      TakeOne(sources, i);
      var fault := CheckSource(expected, limits, sources, i, byHash, total);
      if fault.Some? {
        return Failure(fault.value);
      }
      byHash := byHash[s.sha256 := s];
      total := total + s.size;
    }
    assert sources[..|sources|] == sources;
    if total > limits.maxTotal {
      return Failure(TotalTooLarge);
    }
    return Success(byHash);
  }

  // ----- Exactly the expected artifacts ---------------------------------------------------------------------------

  lemma SubsetOfSameSize<T>(a: set<T>, b: set<T>)
    requires a <= b && |a| == |b|
    ensures a == b
  {
    assert b == a + (b - a);
    assert |b - a| == 0;
  }

  lemma {:induction false} ByHashSize(sources: seq<Source>)
    requires forall i :: 0 <= i < |sources| ==> !Repeated(sources, i)
    ensures |ByHash(sources)| == |sources|
  {
    if sources != [] {
      var n := |sources| - 1;
      assert forall i :: 0 <= i < n ==> !Repeated(sources, i);
      forall i | 0 <= i < n
        ensures !Repeated(sources[..n], i)
      {
        assert !Repeated(sources, i);
      }
      ByHashSize(sources[..n]);
      ByHashKeys(sources[..n]);
      assert !Repeated(sources, n);
      assert sources[n].sha256 !in ByHash(sources[..n]);
    }
  }

  /**
   * Counting, membership and the check for duplicates together force the sources to be exactly the
   * expected ones, so the export never misses a source.
   */
  lemma SourcesAreExpected(expected: map<string, nat>, limits: Limits, sources: seq<Source>)
    requires SourcesMatch(expected, limits, sources)
    ensures ByHash(sources).Keys == expected.Keys
    ensures forall h :: h in expected ==> ByHash(sources)[h].size == expected[h] && ByHash(sources)[h].sha256 == h
    ensures forall h :: h in expected ==> ValidSha256(h) && expected[h] <= limits.maxArtifact
  {
    forall i | 0 <= i < |sources|
      ensures !Repeated(sources, i)
    {
      assert SourceFault(expected, limits, sources, i).None?;
    }
    ByHashSize(sources);
    ByHashKeys(sources);
    forall h | h in ByHash(sources)
      ensures h in expected && ValidSha256(h)
      ensures ByHash(sources)[h].size == expected[h] <= limits.maxArtifact
    {
      var i :| 0 <= i < |sources| && sources[i] == ByHash(sources)[h];
      assert SourceFault(expected, limits, sources, i).None?;
    }
    SubsetOfSameSize(ByHash(sources).Keys, expected.Keys);
  }

  // ----- Archive entries --------------------------------------------------------------------------------------------

  predicate SetBound(inventory: map<string, Inventoried>, expected: map<string, nat>)
  {
    && (forall h :: h in expected ==> ArtifactName(h) in inventory && inventory[ArtifactName(h)].kind == Artifact(h))
    && (forall n :: n in inventory && inventory[n].kind.Artifact? ==> inventory[n].kind.sha256 in expected)
  }

  predicate SizesBound(inventory: map<string, Inventoried>, expected: map<string, nat>)
  {
    forall h :: h in expected && ArtifactName(h) in inventory ==> inventory[ArtifactName(h)].size == expected[h]
  }

  predicate Bound(inventory: map<string, Inventoried>, expected: map<string, nat>)
  {
    SetBound(inventory, expected) && SizesBound(inventory, expected)
  }

  /** Every entry is filed under the name its kind is spelled with. */
  predicate WellNamed(inventory: map<string, Inventoried>)
  {
    forall n :: n in inventory ==>
      match inventory[n].kind
      case Manifest => n == MANIFEST_ENTRY
      case Artifact(h) => n == ArtifactName(h) && ValidSha256(h)
  }

  ghost predicate Collected(inventory: map<string, Inventoried>, names: set<string>, actual: map<string, nat>)
  {
    && (forall n :: n in names && n in inventory && inventory[n].kind.Artifact? ==>
         inventory[n].kind.sha256 in actual && actual[inventory[n].kind.sha256] == inventory[n].size)
    && (forall h :: h in actual ==>
         ArtifactName(h) in names && ArtifactName(h) in inventory && inventory[ArtifactName(h)] == Inventoried(Artifact(h), actual[h]))
  }

  /** The artifact sizes the inventory holds, by hash. */
  method ActualSizes(inventory: map<string, Inventoried>) returns (actual: map<string, nat>)
    requires WellNamed(inventory)
    ensures Collected(inventory, inventory.Keys, actual)
  {
    actual := map[];
    var todo := inventory.Keys;
    while todo != {}
      invariant todo <= inventory.Keys && Collected(inventory, inventory.Keys - todo, actual)
      decreases todo
    {
      var n :| n in todo;
      match inventory[n].kind {
        case Manifest =>
        case Artifact(h) => actual := actual[h := inventory[n].size];
      }
      todo := todo - {n};
    }
    assert inventory.Keys - {} == inventory.Keys;
  }

  method ValidateInventoryBinding(inventory: map<string, Inventoried>, expected: map<string, nat>)
    returns (r: Result<(), ArchiveError>)
    requires WellNamed(inventory)
    ensures r.Success? <==> Bound(inventory, expected)
    ensures r == Failure(ArtifactSetMismatch) <==> !SetBound(inventory, expected)
    ensures r.Failure? ==> r.error == ArtifactSetMismatch || r.error == ArtifactSizeMismatch
  {
    var actual := ActualSizes(inventory);
    SetBoundByKeys(inventory, expected, actual);
    if actual.Keys != expected.Keys {
      return Failure(ArtifactSetMismatch);
    }
    if exists h :: h in expected && actual[h] != expected[h] {
      return Failure(ArtifactSizeMismatch);
    }
    return Success(());
  }

  lemma SetBoundByKeys(inventory: map<string, Inventoried>, expected: map<string, nat>, actual: map<string, nat>)
    requires WellNamed(inventory) && Collected(inventory, inventory.Keys, actual)
    ensures SetBound(inventory, expected) <==> actual.Keys == expected.Keys
  {
  }
}
