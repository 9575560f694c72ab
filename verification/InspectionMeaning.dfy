/** What the inspection demands of an archive, check by check in the order of the checks. */
module InspectionMeaning {
  import opened Wrappers
  import opened Journal
  import opened CopyLoop
  import opened ProfileArchive

  // ----- The parts of a check ---------------------------------------------------------------------------

  /** A hash in its one spelling: 64 digits of base 16, in lower case. */
  predicate Spelled(h: string)
  {
    |h| == 64 && forall i :: 0 <= i < |h| ==> h[i] in "0123456789abcdef"
  }

  lemma SpelledIsValid(h: string)
    ensures ValidSha256(h) <==> Spelled(h)
  {
    forall i | 0 <= i < |h|
      ensures '0' <= h[i] <= '9' || 'a' <= h[i] <= 'f' <==> h[i] in "0123456789abcdef"
    {
      HexDigit(h[i]);
    }
  }

  lemma HexDigit(c: char)
    ensures '0' <= c <= '9' || 'a' <= c <= 'f' <==> c in "0123456789abcdef"
  {
    var digits := "0123456789abcdef";
    if '0' <= c <= '9' {
      assert digits[c as int - '0' as int] == c;
    } else if 'a' <= c <= 'f' {
      assert digits[10 + c as int - 'a' as int] == c;
    }
  }

  /** The file-type bits of a 16-bit mode: absent or a regular file. */
  predicate PlainType(mode: Option<nat>)
  {
    mode.Some? ==> var m := mode.value % 0x1_0000; m < 0x1000 || 0x8000 <= m < 0x9000
  }

  predicate SymlinkType(mode: Option<nat>)
  {
    mode.Some? && 0xA000 <= mode.value % 0x1_0000 < 0xB000
  }

  lemma TypeMeans(mode: Option<nat>)
    ensures TypeFault(mode).None? <==> PlainType(mode)
    ensures !PlainType(mode) ==>
              TypeFault(mode) == Some(if SymlinkType(mode) then SymlinkForbidden else SpecialEntryForbidden)
  {
    if mode.Some? {
      TypeBits(mode.value);
    }
  }

  lemma TypeBits(m: nat)
    ensures m / 0x1000 % 16 == m % 0x1_0000 / 0x1000
  {
    var q, r := m / 0x1_0000, m % 0x1_0000;
    assert m == q * 0x1_0000 + r;
    assert m / 0x1000 == q * 16 + r / 0x1000;
  }

  /** Saturation and the test for zero never decide: the check is that the size is at most the permitted multiple. */
  lemma RatioMeans(limits: Limits, kind: EntryKind, e: Entry)
    requires e.size <= U64_MAX && e.size <= Maximum(limits, kind)
    ensures SizeFault(limits, kind, e).None? <==> e.size <= e.compressed * limits.maxRatio
    ensures SizeFault(limits, kind, e).Some? ==> SizeFault(limits, kind, e) == Some(RatioExceeded)
  {
    if e.compressed == 0 {
      assert e.compressed * limits.maxRatio == 0;
    }
  }

  /** The running total adds the sizes up. */
  lemma {:induction false} SumAdds(a: seq<Entry>, b: seq<Entry>)
    ensures SumSizes(a + b) == SumSizes(a) + SumSizes(b)
    ensures |a| == 1 ==> SumSizes(a) == a[0].size
  {
    if b == [] {
      assert a + b == a;
    } else {
      var n := |b| - 1;
      assert (a + b)[..|a| + n] == a + b[..n];
      SumAdds(a, b[..n]);
    }
  }

  // ----- The checks of one entry -----------------------------------------------------------------------------

  const CHECKS := 14

  /** Check number `c` of the i-th entry; the sizes of an entry are 64-bit words. */
  ghost predicate Passes(naming: Naming, limits: Limits, entries: seq<Entry>, i: nat, c: nat)
    requires i < |entries|
  {
    var e := entries[i];
    match c
    case 0 => !e.encrypted
    case 1 => !e.comment && !e.extra
    case 2 => forall k :: 0 <= k < |e.name| ==> e.name[k] != '\\'
    case 3 => forall k :: 0 <= k < |e.name| ==> e.name[k] < 128 as char
    case 4 => !e.directory && (e.name == "" || e.name[|e.name| - 1] != '/')
    case 5 => naming.canonical(e.name)
    case 6 => PlainType(e.mode)
    case 7 => e.compression == Stored || e.compression == Deflated
    case 8 => forall j :: 0 <= j < i ==> naming.key(entries[j].name) != naming.key(e.name)
    case 9 => e.name == "profile.json" || exists h :: Spelled(h) && e.name == "artifacts/" + h
    case 10 => e.size <= if e.name == "profile.json" then limits.maxManifest else limits.maxArtifact
    case 11 => e.size <= e.compressed * limits.maxRatio
    case 12 => SumSizes(entries[..i]) + e.size <= U64_MAX
    case 13 => SumSizes(entries[..i]) + e.size <= limits.maxTotal + limits.maxManifest
    case _ => true
  }

  /** The error a failed check ends with. */
  function FaultOf(e: Entry, c: nat): ArchiveError
  {
    match c
    case 0 => EncryptedEntry
    case 1 => EntryMetadataForbidden
    case 2 => SeparatorNoncanonical
    case 3 => NameNonAscii
    case 4 => DirectoryForbidden
    case 5 => PathNoncanonical
    case 6 => if SymlinkType(e.mode) then SymlinkForbidden else SpecialEntryForbidden
    case 7 => CompressionUnsupported
    case 8 => EntryCollision
    case 9 => if "artifacts/" <= e.name then HashInvalid else EntryUnsupported
    case 10 => EntrySizeInvalid
    case 11 => RatioExceeded
    case 12 => SizeOverflowed
    case _ => TotalTooLarge
  }

  /** All checks before this one pass, and it fails. */
  ghost predicate FailsFirst(naming: Naming, limits: Limits, entries: seq<Entry>, i: nat, c: nat)
    requires i < |entries|
  {
    c < CHECKS && !Passes(naming, limits, entries, i, c)
    && forall d :: 0 <= d < c ==> Passes(naming, limits, entries, i, d)
  }

  lemma HeaderMeans(naming: Naming, limits: Limits, entries: seq<Entry>, i: nat, c: nat)
    requires i < |entries| && c <= 8
    requires forall d :: 0 <= d < c ==> Passes(naming, limits, entries, i, d)
    ensures c < 8 && !Passes(naming, limits, entries, i, c) ==>
              HeaderFault(naming, entries[i]) == Some(FaultOf(entries[i], c))
    ensures c == 8 ==> HeaderFault(naming, entries[i]).None?
  {
    PassedBefore(naming, limits, entries, i, c);
    TypeMeans(entries[i].mode);
  }

  /** The checks passed so far, one by one. */
  lemma PassedBefore(naming: Naming, limits: Limits, entries: seq<Entry>, i: nat, c: nat)
    requires i < |entries| && forall d :: 0 <= d < c ==> Passes(naming, limits, entries, i, d)
    ensures var e := entries[i];
            && (c > 0 ==> !e.encrypted) && (c > 1 ==> !e.comment && !e.extra)
            && (c > 2 ==> '\\' !in e.name) && (c > 3 ==> Ascii(e.name))
            && (c > 4 ==> !e.directory && (e.name == "" || e.name[|e.name| - 1] != '/'))
            && (c > 5 ==> naming.canonical(e.name)) && (c > 6 ==> PlainType(e.mode))
            && (c > 7 ==> e.compression != OtherMethod) && (c > 8 ==> !Collides(naming, entries, i))
  {
    if c > 0 { assert Passes(naming, limits, entries, i, 0); }
    if c > 1 { assert Passes(naming, limits, entries, i, 1); }
    if c > 2 { assert Passes(naming, limits, entries, i, 2); }
    if c > 3 { assert Passes(naming, limits, entries, i, 3); }
    if c > 4 { assert Passes(naming, limits, entries, i, 4); }
    if c > 5 { assert Passes(naming, limits, entries, i, 5); }
    if c > 6 { assert Passes(naming, limits, entries, i, 6); }
    if c > 7 { assert Passes(naming, limits, entries, i, 7); }
    if c > 8 { assert Passes(naming, limits, entries, i, 8); }
  }

  lemma NamesMean(name: string)
    ensures Classify(name).Success? <==> name == "profile.json" || exists h :: Spelled(h) && name == "artifacts/" + h
    ensures Classify(name).Success? ==> (Classify(name).value.Manifest? <==> name == "profile.json")
    ensures Classify(name).Failure? ==> Classify(name).error == if "artifacts/" <= name then HashInvalid else EntryUnsupported
  {
    if "artifacts/" <= name {
      var h := name[10..];
      assert name == "artifacts/" + h;
      SpelledIsValid(h);
    }
    if h :| Spelled(h) && name == "artifacts/" + h {
      assert name[10..] == h;
      SpelledIsValid(h);
    }
  }

  lemma BodyMeans(limits: Limits, e: Entry)
    requires e.size <= U64_MAX
    ensures var named := e.name == "profile.json" || exists h :: Spelled(h) && e.name == "artifacts/" + h;
            var small := e.size <= if e.name == "profile.json" then limits.maxManifest else limits.maxArtifact;
            BodyFault(limits, e)
            == if !named then Some(if "artifacts/" <= e.name then HashInvalid else EntryUnsupported)
               else if !small then Some(EntrySizeInvalid)
               else if e.size > e.compressed * limits.maxRatio then Some(RatioExceeded)
               else None
  {
    NamesMean(e.name);
    if Classify(e.name).Success? && e.size <= Maximum(limits, Classify(e.name).value) {
      RatioMeans(limits, Classify(e.name).value, e);
    }
  }

  /** The checks after the header. */
  lemma RestMeans(naming: Naming, limits: Limits, entries: seq<Entry>, i: nat, c: nat)
    requires i < |entries| && entries[i].size <= U64_MAX && 8 <= c <= CHECKS
    requires HeaderFault(naming, entries[i]).None?
    requires forall d :: 8 <= d < c ==> Passes(naming, limits, entries, i, d)
    ensures c < CHECKS && !Passes(naming, limits, entries, i, c) ==>
              EntryFault(naming, limits, entries, i) == Some(FaultOf(entries[i], c))
    ensures c == CHECKS ==> EntryFault(naming, limits, entries, i).None?
  {
    BodyMeans(limits, entries[i]);
    if c > 8 { assert Passes(naming, limits, entries, i, 8); }
    if c > 9 { assert Passes(naming, limits, entries, i, 9); }
    if c > 10 { assert Passes(naming, limits, entries, i, 10); }
    if c > 11 { assert Passes(naming, limits, entries, i, 11); }
    if c > 12 { assert Passes(naming, limits, entries, i, 12); }
    if c > 13 { assert Passes(naming, limits, entries, i, 13); }
  }

  /** The first check that fails decides the error, and an entry is accepted exactly if none does. */
  lemma FirstFailedCheck(naming: Naming, limits: Limits, entries: seq<Entry>, i: nat, c: nat)
    requires i < |entries| && entries[i].size <= U64_MAX && c <= CHECKS
    requires forall d :: 0 <= d < c ==> Passes(naming, limits, entries, i, d)
    ensures c < CHECKS && !Passes(naming, limits, entries, i, c) ==>
              EntryFault(naming, limits, entries, i) == Some(FaultOf(entries[i], c))
    ensures c == CHECKS ==> EntryFault(naming, limits, entries, i).None?
  {
    HeaderMeans(naming, limits, entries, i, if c < 8 then c else 8);
    if c >= 8 {
      RestMeans(naming, limits, entries, i, c);
    }
  }

  lemma {:induction false} SomeCheckFails(naming: Naming, limits: Limits, entries: seq<Entry>, i: nat, c: nat)
    requires i < |entries| && entries[i].size <= U64_MAX && c <= CHECKS
    requires forall d :: 0 <= d < c ==> Passes(naming, limits, entries, i, d)
    ensures EntryFault(naming, limits, entries, i).None?
       <==> forall d :: c <= d < CHECKS ==> Passes(naming, limits, entries, i, d)
    decreases CHECKS - c
  {
    FirstFailedCheck(naming, limits, entries, i, c);
    if c < CHECKS && Passes(naming, limits, entries, i, c) {
      SomeCheckFails(naming, limits, entries, i, c + 1);
    }
  }

  /** What is wrong with the frame: something beside the entries first, then none or too many of them. */
  lemma FrameMeans(limits: Limits, archive: Archive)
    ensures FrameFault(limits, archive) == Some(ArchiveMetadataForbidden)
       <==> archive.offset > 0 || archive.comment || archive.zip64Comment
    ensures FrameFault(limits, archive) == Some(EntryCountInvalid)
       <==> archive.offset == 0 && !archive.comment && !archive.zip64Comment
            && (|archive.entries| == 0 || |archive.entries| > limits.maxEntries)
    ensures FrameFault(limits, archive).Some? ==>
              FrameFault(limits, archive).value in {ArchiveMetadataForbidden, EntryCountInvalid}
  {
  }

  // ----- The whole archive --------------------------------------------------------------------------------------

  lemma {:induction false} PartOfSum(entries: seq<Entry>, i: nat)
    requires i < |entries|
    ensures SumSizes(entries[..i]) + entries[i].size <= SumSizes(entries)
  {
    var n := |entries| - 1;
    if i < n {
      assert entries[..n][..i] == entries[..i];
      PartOfSum(entries[..n], i);
    }
  }

  /** Every entry passes these checks. */
  ghost predicate AllPass(naming: Naming, limits: Limits, entries: seq<Entry>, from: nat, to: nat)
  {
    forall i, c :: 0 <= i < |entries| && from <= c < to ==> Passes(naming, limits, entries, i, c)
  }

  lemma FaultlessMeans(naming: Naming, limits: Limits, entries: seq<Entry>)
    requires forall e :: e in entries ==> e.size <= U64_MAX
    ensures FaultlessUpTo(naming, limits, entries, |entries|) <==> AllPass(naming, limits, entries, 0, CHECKS)
  {
    forall i | 0 <= i < |entries|
      ensures EntryFault(naming, limits, entries, i).None? <==> EntryPasses(naming, limits, entries, i)
    {
      assert entries[i] in entries;
      SomeCheckFails(naming, limits, entries, i, 0);
    }
    if FaultlessUpTo(naming, limits, entries, |entries|) {
      forall i, c | 0 <= i < |entries| && 0 <= c < CHECKS
        ensures Passes(naming, limits, entries, i, c)
      {
        assert EntryFault(naming, limits, entries, i).None?;
        assert EntryPasses(naming, limits, entries, i);
      }
    }
  }

  ghost predicate EntryPasses(naming: Naming, limits: Limits, entries: seq<Entry>, i: nat)
    requires i < |entries|
  {
    forall d :: 0 <= d < CHECKS ==> Passes(naming, limits, entries, i, d)
  }

  /** The last entry's running total is the whole. */
  lemma TotalsAgree(naming: Naming, limits: Limits, entries: seq<Entry>)
    requires entries != []
    ensures AllPass(naming, limits, entries, 12, CHECKS)
       <==> SumSizes(entries) <= U64_MAX && SumSizes(entries) <= limits.maxTotal + limits.maxManifest
  {
    var n := |entries| - 1;
    if AllPass(naming, limits, entries, 12, CHECKS) {
      assert Passes(naming, limits, entries, n, 12) && Passes(naming, limits, entries, n, 13);
    } else {
      var i, c :| 0 <= i < |entries| && 12 <= c < CHECKS && !Passes(naming, limits, entries, i, c);
      PartOfSum(entries, i);
    }
  }

  lemma PassesSplit(naming: Naming, limits: Limits, entries: seq<Entry>)
    ensures AllPass(naming, limits, entries, 0, CHECKS)
       <==> AllPass(naming, limits, entries, 0, 12) && AllPass(naming, limits, entries, 12, CHECKS)
  {
  }

  /**
   * An archive is accepted exactly if it starts at the beginning of the file and has no comment, a
   * permitted number of entries, each passing the first twelve checks, a manifest among them, and
   * sizes that together stay within the limits: that the total is checked entry by entry makes no
   * difference.
   */
  lemma InspectableExactly(naming: Naming, limits: Limits, archive: Archive)
    requires forall e :: e in archive.entries ==> e.size <= U64_MAX
    ensures Inspectable(naming, limits, archive)
       <==> && archive.offset == 0 && !archive.comment && !archive.zip64Comment
            && 1 <= |archive.entries| <= limits.maxEntries
            && AllPass(naming, limits, archive.entries, 0, 12)
            && SumSizes(archive.entries) <= U64_MAX
            && SumSizes(archive.entries) <= limits.maxTotal + limits.maxManifest
            && (exists e :: e in archive.entries && e.name == "profile.json")
  {
    var entries := archive.entries;
    FaultlessMeans(naming, limits, entries);
    PassesSplit(naming, limits, entries);
    if entries != [] {
      TotalsAgree(naming, limits, entries);
    }
  }
}
