/** Installing or replacing a pack: the transition always reconciles, and ownership keeps its meaning. */
module PackInstallation {
  import opened Wrappers
  import opened Ordering
  import opened ContentModel
  import opened PackMembership
  import opened PackOperations
  import opened PackOwnership

  lemma TransitionElements(pre: Lock, pack: PackInput, previous: Option<Id>, members: seq<Member>)
    requires TransitionedTo(pre, pack, previous, members)
    ensures forall m :: m in members <==>
              || m in Remaining(pre, previous, MemberSpecs(pack))
              || m in NewMembers(pre, pack.id, previous, MemberSpecs(pack))
  {
    var remaining, added := Remaining(pre, previous, MemberSpecs(pack)), NewMembers(pre, pack.id, previous, MemberSpecs(pack));
    forall m
      ensures m in members <==> m in remaining || m in added
    {
      assert m in members <==> m in multiset(members);
      assert m in remaining <==> m in multiset(remaining);
    }
  }

  /** The replaced pack is an installed pack, so it is nobody's member content. */
  lemma PreviousIsNoContent(s: State, source: Option<Source>, previous: Option<Id>, m: Member)
    requires Inv(s) && IsPreviousPack(s.lock.items, source, previous) && m in s.lock.members
    ensures Some(m.content) != previous
  {
    assert Bound(s.lock, m);
  }

  lemma RemainingFacts(s: State, pack: PackInput, previous: Option<Id>)
    requires Inv(s)
    ensures AtMostOneOwner(Remaining(s.lock, previous, MemberSpecs(pack)))
    ensures StrictlyOrdered(Remaining(s.lock, previous, MemberSpecs(pack)))
    ensures Contents(Remaining(s.lock, previous, MemberSpecs(pack))) == Contents(Keep(s.lock.members, previous))
  {
    var members, retained := s.lock.members, MemberSpecs(pack).Keys;
    var kept, orphans := Keep(members, previous), Orphans(members, previous, retained);
    KeepOneOwner(members, previous);
    forall id | id in orphans
      ensures !Owned(kept, id)
    {
      OrphansUnowned(members, previous, retained, id);
    }
    HeirsOneOwner(kept, orphans);
    KeepStrictlyOrdered(members, previous);
    HeirsStrictlyOrdered(kept, orphans);
    HeirsContents(kept, orphans);
  }

  /** A remaining membership was one of another pack's, up to ownership. */
  lemma RemainingOf(s: State, pack: PackInput, previous: Option<Id>, m: Member) returns (k: Member)
    requires Inv(s) && m in Remaining(s.lock, previous, MemberSpecs(pack))
    ensures k in s.lock.members && Some(k.pack) != previous && m == k.(ownsSelection := m.ownsSelection)
    ensures Bound(s.lock, k)
  {
    k := HeirOf(Keep(s.lock.members, previous), Orphans(s.lock.members, previous, MemberSpecs(pack).Keys), m);
  }

  /** A content of another pack is never scheduled for removal, nor is that pack. */
  lemma RemainingStays(s: State, pack: PackInput, previous: Option<Id>, m: Member)
    requires Inv(s) && IsPreviousPack(s.lock.items, Some(pack.source), previous)
    requires m in Remaining(s.lock, previous, MemberSpecs(pack))
    ensures m.content in s.lock.requested && m.content !in TransitionRemovals(s.lock, previous, MemberSpecs(pack))
    ensures m.pack in s.lock.requested && m.pack !in TransitionRemovals(s.lock, previous, MemberSpecs(pack))
  {
    var k := RemainingOf(s, pack, previous, m);
    PreviousIsNoContent(s, Some(pack.source), previous, k);
    KeptStays(s, previous, MemberSpecs(pack).Keys, k);
  }

  lemma KeptStays(s: State, gone: Option<Id>, retained: set<Id>, k: Member)
    requires Inv(s) && k in s.lock.members && Some(k.pack) != gone && Some(k.content) != gone
    ensures k.content !in Removals(s.lock.members, gone, retained)
    ensures k.pack !in Removals(s.lock.members, gone, retained)
  {
    assert k in Keep(s.lock.members, gone);
    assert Bound(s.lock, k);
    PackIsNoContent(s.lock, k.pack);
  }

  /** A new membership that owns its content has no rival among the remaining ones. */
  lemma NewOwnerIsAlone(s: State, pack: PackInput, previous: Option<Id>, id: Id)
    requires Inv(s) && id in pack.files
    requires NewMember(s.lock, pack.id, previous, MemberSpecs(pack), id).ownsSelection
    ensures !Owned(Remaining(s.lock, previous, MemberSpecs(pack)), id)
  {
    var members, retained := s.lock.members, MemberSpecs(pack).Keys;
    if id in CarriedIds(s.lock, previous) {
      assert id in Orphans(members, previous, {});
      OrphansUnowned(members, previous, {}, id);
      HeirsOwned(Keep(members, previous), Orphans(members, previous, retained), id);
    }
  }

  lemma TransitionOneOwner(s: State, pack: PackInput, previous: Option<Id>, members: seq<Member>)
    requires Inv(s) && TransitionedTo(s.lock, pack, previous, members)
    ensures AtMostOneOwner(members)
  {
    var specs := MemberSpecs(pack);
    var remaining, added := Remaining(s.lock, previous, specs), NewMembers(s.lock, pack.id, previous, specs);
    RemainingFacts(s, pack, previous);
    TransitionElements(s.lock, pack, previous, members);
    forall i, j | 0 <= i < j < |members| && members[i].content == members[j].content
      ensures !(members[i].ownsSelection && members[j].ownsSelection)
    {
      var x, y := members[i], members[j];
      if x.ownsSelection && y.ownsSelection {
        assert x in members && y in members;
        if x in added || y in added {
          NewOwnerIsAlone(s, pack, previous, x.content);
          assert x !in remaining && y !in remaining;
        } else {
          SameOwner(remaining, x, y);
        }
        assert x == y;
        OnceInUnion(remaining, added, members, x);
        TwoPositions(members, i, j);
      }
    }
  }

  /**
   * A successful transition can always be reconciled: each member is selected, versions agree, and
   * at most one membership owns each content.
   */
  lemma TransitionReconciles(s: State, pack: PackInput, previous: Option<Id>, members: seq<Member>)
    requires Inv(s) && TransitionedTo(s.lock, pack, previous, members)
    ensures Reconcilable(MergedAfter(s.lock, pack, previous), members)
  {
    var specs := MemberSpecs(pack);
    var remaining := Remaining(s.lock, previous, specs);
    TransitionElements(s.lock, pack, previous, members);
    TransitionOneOwner(s, pack, previous, members);
    forall m | m in members
      ensures m.content in MergedAfter(s.lock, pack, previous)
    {
      if m in remaining {
        RemainingStays(s, pack, previous, m);
      }
    }
    forall m, n | m in members && n in members && m.content == n.content
      ensures m.version == n.version
    {
      SameVersion(s, pack, previous, members, m, n);
    }
  }

  lemma SameVersion(s: State, pack: PackInput, previous: Option<Id>, members: seq<Member>, m: Member, n: Member)
    requires Inv(s) && TransitionedTo(s.lock, pack, previous, members)
    requires m in members && n in members && m.content == n.content
    ensures m.version == n.version
  {
    var specs := MemberSpecs(pack);
    var remaining := Remaining(s.lock, previous, specs);
    TransitionElements(s.lock, pack, previous, members);
    if m.content in pack.files {
      assert NoClash(specs, s.lock.items, CarriedIds(s.lock, previous), remaining, m.content);
    } else {
      var k := RemainingOf(s, pack, previous, m);
      var l := RemainingOf(s, pack, previous, n);
    }
  }

  /** The merged selections are exactly the ids counted before the download, so the bound holds. */
  lemma MergedKeysAreCounted(pre: Lock, pack: PackInput, previous: Option<Id>, members: seq<Member>)
    requires TransitionedTo(pre, pack, previous, members)
    ensures Reconciled(MergedAfter(pre, pack, previous), members).Keys
         == ResultingSelections(pre, pack.id, previous, MemberSpecs(pack))
    ensures |Reconciled(MergedAfter(pre, pack, previous), members)| <= MAX_SELECTIONS
  {
    var removals := TransitionRemovals(pre, previous, MemberSpecs(pack));
    MergedKeys(pre.requested, removals, pack);
    ReconciledKeys(MergedAfter(pre, pack, previous), members);
  }

  lemma ReconciledKeys(requested: map<Id, Selection>, members: seq<Member>)
    ensures Reconciled(requested, members).Keys == requested.Keys
    ensures |Reconciled(requested, members)| == |requested.Keys|
  {
    var reconciled := Reconciled(requested, members);
    assert |reconciled| == |reconciled.Keys|;
  }

  lemma MergedKeys(requested: map<Id, Selection>, removals: set<Id>, pack: PackInput)
    ensures Merged(Without(requested, removals), pack).Keys
         == (requested.Keys - removals) + {pack.id} + MemberSpecs(pack).Keys
  {
    assert Without(requested, removals).Keys == requested.Keys - removals;
  }

  /** An installed pack of this identifier that is not the one replaced already lists one of the files. */
  predicate ListedTwice(pre: Lock, pack: PackInput, previous: Option<Id>)
  {
    exists m :: m in pre.members && m.pack == pack.id && previous != Some(pack.id) && m.content in pack.files
  }

  /** The sorted list has no membership twice, exactly unless another pack of this identifier is in the way. */
  lemma TransitionKeepsOrder(s: State, pack: PackInput, previous: Option<Id>, members: seq<Member>)
    requires Inv(s) && TransitionedTo(s.lock, pack, previous, members)
    ensures StrictlyOrdered(members) <==> !ListedTwice(s.lock, pack, previous)
  {
    var specs := MemberSpecs(pack);
    var remaining, added := Remaining(s.lock, previous, specs), NewMembers(s.lock, pack.id, previous, specs);
    RemainingFacts(s, pack, previous);
    TransitionElements(s.lock, pack, previous, members);
    if ListedTwice(s.lock, pack, previous) {
      TwiceIsNotStrict(s, pack, previous, members);
    } else {
      forall m, n | m in remaining && n in added
        ensures !SameMembership(m, n)
      {
        var k := RemainingOf(s, pack, previous, m);
      }
      UnionStaysStrict(remaining, added, members);
    }
  }

  lemma StillRemaining(pre: Lock, pack: PackInput, previous: Option<Id>, k: Member) returns (m: Member)
    requires k in pre.members && Some(k.pack) != previous
    ensures m in Remaining(pre, previous, MemberSpecs(pack)) && SameMembership(m, k)
  {
    var kept, orphans := Keep(pre.members, previous), Orphans(pre.members, previous, MemberSpecs(pack).Keys);
    var i :| 0 <= i < |kept| && kept[i] == k;
    m := Heirs(kept, orphans)[i];
  }

  lemma TwiceIsNotStrict(s: State, pack: PackInput, previous: Option<Id>, members: seq<Member>)
    requires TransitionedTo(s.lock, pack, previous, members) && ListedTwice(s.lock, pack, previous)
    ensures !StrictlyOrdered(members)
  {
    var specs := MemberSpecs(pack);
    var k :| k in s.lock.members && k.pack == pack.id && previous != Some(pack.id) && k.content in pack.files;
    var m := StillRemaining(s.lock, pack, previous, k);
    var n := NewMember(s.lock, pack.id, previous, specs, k.content);
    assert n in NewMembers(s.lock, pack.id, previous, specs);
    UnionHasTwo(Remaining(s.lock, previous, specs), NewMembers(s.lock, pack.id, previous, specs), members, m, n);
  }

  lemma UnionHasTwo(remaining: seq<Member>, added: set<Member>, members: seq<Member>, m: Member, n: Member)
    requires multiset(members) == multiset(remaining) + multiset(added)
    requires m in remaining && n in added && SameMembership(m, n)
    ensures !StrictlyOrdered(members)
  {
    assert m in multiset(members) && n in multiset(members);
    if m == n {
      assert multiset(members)[m] == multiset(remaining)[m] + multiset(added)[m];
      var i, j := StandsTwice(members, m);
    } else {
      var i :| 0 <= i < |members| && members[i] == m;
      var j :| 0 <= j < |members| && members[j] == n;
    }
  }

  lemma UnionStaysStrict(remaining: seq<Member>, added: set<Member>, members: seq<Member>)
    requires Ordered(members, MemberAtMost) && multiset(members) == multiset(remaining) + multiset(added)
    requires StrictlyOrdered(remaining)
    requires forall m, n :: m in remaining && n in added ==> !SameMembership(m, n)
    requires forall m, n :: m in added && n in added && SameMembership(m, n) ==> m == n
    ensures StrictlyOrdered(members)
  {
    forall i, j | 0 <= i < j < |members|
      ensures !SameMembership(members[i], members[j])
    {
      var x, y := members[i], members[j];
      assert x in multiset(members) && y in multiset(members);
      if SameMembership(x, y) {
        OneUnionMember(remaining, added, x, y);
        OnceInUnion(remaining, added, members, x);
        TwoPositions(members, i, j);
      }
    }
  }

  lemma OneUnionMember(remaining: seq<Member>, added: set<Member>, x: Member, y: Member)
    requires StrictlyOrdered(remaining) && SameMembership(x, y)
    requires (x in remaining || x in added) && (y in remaining || y in added)
    requires forall m, n :: m in remaining && n in added ==> !SameMembership(m, n)
    requires forall m, n :: m in added && n in added && SameMembership(m, n) ==> m == n
    ensures x == y
  {
    assert SameMembership(y, x);
    if x in remaining && y in remaining {
      StrictMembershipIsUnique(remaining, x, y);
    }
  }

  lemma OnceInUnion(remaining: seq<Member>, added: set<Member>, members: seq<Member>, x: Member)
    requires multiset(members) == multiset(remaining) + multiset(added)
    requires StrictlyOrdered(remaining) && !(x in remaining && x in added)
    ensures multiset(members)[x] <= 1
  {
    StrictlyOrderedOnce(remaining, x);
    assert multiset(members)[x] == multiset(remaining)[x] + multiset(added)[x];
  }

  lemma StrictMembershipIsUnique(members: seq<Member>, m: Member, n: Member)
    requires StrictlyOrdered(members) && m in members && n in members && SameMembership(m, n)
    ensures m == n
  {
    var i :| 0 <= i < |members| && members[i] == m;
    var j :| 0 <= j < |members| && members[j] == n;
  }

  // ----- Ownership after the installation ---------------------------------------------------------

  /** The resolver's catalog has one kind per identifier, so a pack file never names an installed pack. */
  lemma FileIsNoPack(pre: Lock, pack: PackInput, id: Id)
    requires WellFormedPack(pack) && id in pack.files
    requires ConsistentCatalog(Catalog(pre.items, PackReleases(pack)))
    ensures id != pack.id
    ensures id in pre.items ==> pre.items[id].kind != Modpack
  {
    var catalog := Catalog(pre.items, PackReleases(pack));
    assert FileRelease(id, pack.files[id]) in catalog;
    assert Release(pack.id, pack.version, Modpack, Some(pack.source)) in catalog;
    if id in pre.items {
      assert ReleaseOf(id, pre.items[id]) in catalog;
    }
  }

  lemma PackIdIsPack(pre: Lock, pack: PackInput)
    requires ConsistentCatalog(Catalog(pre.items, PackReleases(pack)))
    ensures pack.id in pre.items ==> pre.items[pack.id].kind == Modpack
  {
    var catalog := Catalog(pre.items, PackReleases(pack));
    assert Release(pack.id, pack.version, Modpack, Some(pack.source)) in catalog;
    if pack.id in pre.items {
      assert ReleaseOf(pack.id, pre.items[pack.id]) in catalog;
    }
  }

  /** A membership's pack is no file, and its content no pack, old and new alike. */
  lemma PackOrContent(s: State, pack: PackInput, previous: Option<Id>, members: seq<Member>, m: Member)
    requires Inv(s) && WellFormedPack(pack) && TransitionedTo(s.lock, pack, previous, members) && m in members
    requires ConsistentCatalog(Catalog(s.lock.items, PackReleases(pack)))
    ensures m.pack == pack.id || (m.pack in s.lock.items && s.lock.items[m.pack].kind == Modpack)
    ensures m.content != pack.id && (m.content in s.lock.items ==> s.lock.items[m.content].kind != Modpack)
  {
    TransitionElements(s.lock, pack, previous, members);
    PackIdIsPack(s.lock, pack);
    if m in Remaining(s.lock, previous, MemberSpecs(pack)) {
      var k := RemainingOf(s, pack, previous, m);
    } else {
      FileIsNoPack(s.lock, pack, m.content);
    }
  }

  /** The catalog's one kind per identifier keeps packs and listed contents apart. */
  lemma CatalogKeepsPacksApart(s: State, pack: PackInput, previous: Option<Id>, members: seq<Member>)
    requires Inv(s) && WellFormedPack(pack) && TransitionedTo(s.lock, pack, previous, members)
    requires ConsistentCatalog(Catalog(s.lock.items, PackReleases(pack)))
    ensures PacksApart(members)
  {
    forall m, n | m in members && n in members
      ensures m.pack != n.content
    {
      PackOrContent(s, pack, previous, members, m);
      PackOrContent(s, pack, previous, members, n);
    }
  }

  /** A selected pack file stays selected through the transition. */
  lemma FileStillRequested(pre: Lock, pack: PackInput, previous: Option<Id>, id: Id)
    requires IsPreviousPack(pre.items, Some(pack.source), previous)
    requires id in pack.files && id in pre.requested && (id in pre.items ==> pre.items[id].kind != Modpack)
    ensures id in StillRequested(pre, previous, MemberSpecs(pack))
  {
    assert id in MemberSpecs(pack);
  }

  lemma UnselectedUnowned(s: State, pack: PackInput, previous: Option<Id>, id: Id)
    requires AllBound(s.lock) && id !in s.lock.requested
    ensures !Owned(Remaining(s.lock, previous, MemberSpecs(pack)), id)
  {
    RemainingOwned(s.lock, pack, previous, id);
    forall m | m in s.lock.members
      ensures m.content != id
    {
      assert Bound(s.lock, m);
    }
  }

  /** A new membership owns its selection if the old version did, or if the content was not selected. */
  lemma NewOwnership(s: State, pack: PackInput, previous: Option<Id>, id: Id)
    requires Inv(s) && WellFormedPack(pack) && id in pack.files
    requires IsPreviousPack(s.lock.items, Some(pack.source), previous)
    requires ConsistentCatalog(Catalog(s.lock.items, PackReleases(pack)))
    ensures NewMember(s.lock, pack.id, previous, MemberSpecs(pack), id).ownsSelection
       <==> id in CarriedIds(s.lock, previous) || id !in s.lock.requested
  {
    FileIsNoPack(s.lock, pack, id);
    if id in s.lock.requested {
      FileStillRequested(s.lock, pack, previous, id);
    } else {
      UnselectedUnowned(s, pack, previous, id);
    }
  }

  lemma TransitionContent(s: State, pack: PackInput, previous: Option<Id>, members: seq<Member>, id: Id)
    requires Inv(s) && TransitionedTo(s.lock, pack, previous, members)
    ensures id in Contents(members) <==> id in Contents(Keep(s.lock.members, previous)) || id in pack.files
  {
    var specs := MemberSpecs(pack);
    TransitionElements(s.lock, pack, previous, members);
    HeirsContents(Keep(s.lock.members, previous), Orphans(s.lock.members, previous, specs.Keys));
    assert id in Contents(Remaining(s.lock, previous, specs)) <==> id in Contents(Keep(s.lock.members, previous));
    if id in pack.files {
      assert NewMember(s.lock, pack.id, previous, specs, id) in NewMembers(s.lock, pack.id, previous, specs);
    }
  }

  lemma TransitionOwned(s: State, pack: PackInput, previous: Option<Id>, members: seq<Member>, id: Id)
    requires Inv(s) && TransitionedTo(s.lock, pack, previous, members)
    ensures Owned(members, id) <==>
            || Owned(Remaining(s.lock, previous, MemberSpecs(pack)), id)
            || (id in pack.files && NewMember(s.lock, pack.id, previous, MemberSpecs(pack), id).ownsSelection)
  {
    var specs := MemberSpecs(pack);
    TransitionElements(s.lock, pack, previous, members);
    if id in pack.files {
      assert NewMember(s.lock, pack.id, previous, specs, id) in NewMembers(s.lock, pack.id, previous, specs);
    }
  }

  lemma RemainingOwned(pre: Lock, pack: PackInput, previous: Option<Id>, id: Id)
    ensures Owned(Remaining(pre, previous, MemberSpecs(pack)), id) <==>
            || Owned(Keep(pre.members, previous), id)
            || (id !in pack.files && id in CarriedIds(pre, previous) && id in Contents(Keep(pre.members, previous)))
  {
    HeirsOwned(Keep(pre.members, previous), Orphans(pre.members, previous, MemberSpecs(pack).Keys), id);
  }

  lemma CarriedSplit(pre: Lock, previous: Option<Id>, id: Id)
    ensures Owned(pre.members, id) <==> Owned(Keep(pre.members, previous), id) || id in CarriedIds(pre, previous)
    ensures id in Contents(Keep(pre.members, previous)) ==> id in Contents(pre.members)
  {
    OwnedSplit(pre.members, previous, id);
    assert CarriedIds(pre, previous) == Orphans(pre.members, previous, {});
  }

  lemma UnlistedUnowned(pre: Lock, id: Id)
    requires id !in Contents(pre.members)
    ensures !Owned(pre.members, id)
  {
  }

  lemma KeptOwnership(s: State, pack: PackInput, previous: Option<Id>, id: Id)
    requires OwnershipMeaning(s.lock.members, s.manual)
    requires id !in pack.files && id in Contents(Keep(s.lock.members, previous))
    ensures Owned(Remaining(s.lock, previous, MemberSpecs(pack)), id) <==> id !in s.manual
  {
    RemainingOwned(s.lock, pack, previous, id);
    CarriedSplit(s.lock, previous, id);
  }

  lemma FileOwnership(s: State, pack: PackInput, previous: Option<Id>, id: Id)
    requires OwnershipMeaning(s.lock.members, s.manual) && Contents(s.lock.members) <= s.lock.requested.Keys
    requires s.lock.requested.Keys == s.manual + PackIds(s.lock) + Contents(s.lock.members)
    requires id in pack.files && id !in PackIds(s.lock)
    ensures Owned(Remaining(s.lock, previous, MemberSpecs(pack)), id)
            || id in CarriedIds(s.lock, previous) || id !in s.lock.requested
       <==> id !in s.manual
  {
    RemainingOwned(s.lock, pack, previous, id);
    CarriedSplit(s.lock, previous, id);
    if id !in Contents(s.lock.members) {
      UnlistedUnowned(s.lock, id);
    }
  }

  /** After the transition too, a member content is owned exactly when it is not manual. */
  lemma OwnershipAfterTransition(s: State, pack: PackInput, previous: Option<Id>, members: seq<Member>, id: Id)
    requires Inv(s) && WellFormedPack(pack) && TransitionedTo(s.lock, pack, previous, members)
    requires ConsistentCatalog(Catalog(s.lock.items, PackReleases(pack)))
    requires id in Contents(members)
    ensures Owned(members, id) <==> id !in s.manual
  {
    TransitionContent(s, pack, previous, members, id);
    TransitionOwned(s, pack, previous, members, id);
    if id in pack.files {
      FileIsNoPack(s.lock, pack, id);
      NewOwnership(s, pack, previous, id);
      FileOwnership(s, pack, previous, id);
    } else {
      KeptOwnership(s, pack, previous, id);
    }
  }

  // ----- Keys and bindings after the installation -------------------------------------------------

  lemma InstalledKeys(s: State, pack: PackInput, previous: Option<Id>, post: Lock, id: Id)
    requires post.requested == Reconciled(MergedAfter(s.lock, pack, previous), post.members)
    ensures id in post.requested <==>
            || (id in s.lock.requested && id !in TransitionRemovals(s.lock, previous, MemberSpecs(pack)))
            || id == pack.id || id in pack.files
  {
    ReconciledKeys(MergedAfter(s.lock, pack, previous), post.members);
    MergedKeys(s.lock.requested, TransitionRemovals(s.lock, previous, MemberSpecs(pack)), pack);
  }

  lemma ManualStays(s: State, gone: Option<Id>, retained: set<Id>, id: Id)
    requires Inv(s) && id in s.manual
    requires gone.Some? ==> gone.value in s.lock.items && s.lock.items[gone.value].kind == Modpack
    ensures id in s.lock.requested && id !in Removals(s.lock.members, gone, retained)
  {
    if id in Orphans(s.lock.members, gone, retained) {
      OrphansUnowned(s.lock.members, gone, retained, id);
    }
  }

  /** A content only the departing pack listed goes with it, unless a user wanted it. */
  lemma LeftoverIsManual(s: State, gone: Option<Id>, retained: set<Id>, id: Id)
    requires OwnershipMeaning(s.lock.members, s.manual)
    requires id in Contents(s.lock.members) && id !in Contents(Keep(s.lock.members, gone))
    requires id !in retained && id !in Removals(s.lock.members, gone, retained)
    ensures id in s.manual
  {
    OwnedSplit(s.lock.members, gone, id);
  }

  lemma InstalledKeyMeans(s: State, pack: PackInput, previous: Option<Id>, post: Lock, id: Id)
    requires Inv(s) && PackInstalled(s.lock, pack, previous, post) && id in post.requested
    ensures id in s.manual || id in PackIds(post) || id in Contents(post.members)
  {
    InstalledKeys(s, pack, previous, post, id);
    TransitionContent(s, pack, previous, post.members, id);
    if id == pack.id {
      ResolutionUses(s.lock, PackReleases(pack), post, Release(pack.id, pack.version, Modpack, Some(pack.source)));
    } else if id in PackIds(s.lock) {
      ResolutionKeeps(s.lock, PackReleases(pack), post, id);
    } else if id !in pack.files && id !in s.manual && id !in Contents(Keep(s.lock.members, previous)) {
      LeftoverIsManual(s, previous, MemberSpecs(pack).Keys, id);
    }
  }

  lemma ManualIsNoPack(s: State, added: set<Release>, post: Lock, id: Id)
    requires Inv(s) && id in s.manual && id in post.items
    requires Resolution(Catalog(s.lock.items, added), post.requested, post.items)
    ensures post.items[id].kind != Modpack
  {
    ResolutionKeeps(s.lock, added, post, id);
  }

  lemma InstallKey(s: State, pack: PackInput, previous: Option<Id>, post: Lock, id: Id)
    requires Inv(s) && PackInstalled(s.lock, pack, previous, post)
    ensures KeyMeans(post, s.manual, id)
  {
    if id in post.requested {
      InstalledKeyMeans(s, pack, previous, post, id);
    }
    if id in s.manual {
      ManualStays(s, previous, MemberSpecs(pack).Keys, id);
      InstalledKeys(s, pack, previous, post, id);
      ManualIsNoPack(s, PackReleases(pack), post, id);
    }
    if id in Contents(post.members) {
      TransitionReconciles(s, pack, previous, post.members);
    }
  }

  lemma InstallKeysMeaning(s: State, pack: PackInput, previous: Option<Id>, post: Lock)
    requires Inv(s) && PackInstalled(s.lock, pack, previous, post)
    ensures KeysMeaning(post, s.manual)
  {
    forall id
      ensures KeyMeans(post, s.manual, id)
    {
      InstallKey(s, pack, previous, post, id);
    }
    EveryKeyMeans(post, s.manual);
  }

  lemma InstallBound(s: State, pack: PackInput, previous: Option<Id>, post: Lock, m: Member)
    requires Inv(s) && WellFormedPack(pack) && TransitionedTo(s.lock, pack, previous, post.members) && m in post.members
    requires post.requested == Reconciled(MergedAfter(s.lock, pack, previous), post.members)
    requires Resolution(Catalog(s.lock.items, PackReleases(pack)), post.requested, post.items)
    ensures Bound(post, m)
  {
    TransitionElements(s.lock, pack, previous, post.members);
    TransitionReconciles(s, pack, previous, post.members);
    VersionOfBound(post.members, m);
    assert post.requested[m.content].version == Exact(m.version);
    InstalledKeys(s, pack, previous, post, m.pack);
    if m in Remaining(s.lock, previous, MemberSpecs(pack)) {
      RemainingStays(s, pack, previous, m);
      var k := RemainingOf(s, pack, previous, m);
      StaysBound(s.lock, PackReleases(pack), post, k, m);
    } else {
      NewBound(s.lock, pack, post, m);
    }
  }

  lemma NewBound(pre: Lock, pack: PackInput, post: Lock, m: Member)
    requires WellFormedPack(pack) && Resolution(Catalog(pre.items, PackReleases(pack)), post.requested, post.items)
    requires m.content in pack.files && m.pack == pack.id && m.version == pack.files[m.content].version
    requires m.pack in post.requested && m.content in post.requested
    requires post.requested[m.content].version == Exact(m.version)
    ensures Bound(post, m)
  {
    ResolutionUses(pre, PackReleases(pack), post, Release(pack.id, pack.version, Modpack, Some(pack.source)));
    ResolutionUses(pre, PackReleases(pack), post, FileRelease(m.content, pack.files[m.content]));
  }

  /** Installing or replacing a pack keeps the meaning of ownership. */
  lemma InstallPackKeepsInv(s: State, pack: PackInput, previous: Option<Id>, post: Lock)
    requires Inv(s) && WellFormedPack(pack) && PackInstalled(s.lock, pack, previous, post)
    ensures Inv(State(post, s.manual))
  {
    forall m | m in post.members
      ensures Bound(post, m)
    {
      InstallBound(s, pack, previous, post, m);
    }
    forall id | id in Contents(post.members)
      ensures Owned(post.members, id) <==> id !in s.manual
    {
      OwnershipAfterTransition(s, pack, previous, post.members, id);
    }
    InstallKeysMeaning(s, pack, previous, post);
    BoundPacksApart(post);
    ReconcileIdempotent(MergedAfter(s.lock, pack, previous), post.members);
  }
}
