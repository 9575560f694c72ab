/** Installing a new pack and removing it again. */
module PackRoundTrip {
  import opened Wrappers
  import opened Ordering
  import opened ContentModel
  import opened PackMembership
  import opened PackOperations
  import opened PackOwnership
  import opened PackInstallation
  import opened PackLaws

  lemma {:induction false} KeepAll(members: seq<Member>, pack: Option<Id>)
    requires forall m :: m in members ==> Some(m.pack) != pack
    ensures Keep(members, pack) == members
  {
    if members != [] {
      KeepAll(members[1..], pack);
    }
  }

  lemma HeirsOfNone(members: seq<Member>, orphans: set<Id>)
    requires forall m :: m in members ==> m.content !in orphans
    ensures Heirs(members, orphans) == members
  {
    var r := Heirs(members, orphans);
    forall i | 0 <= i < |members|
      ensures r[i] == members[i]
    {
      assert members[i] in members;
    }
  }

  /** A membership list is determined by its elements. */
  lemma {:induction false} StrictlyOrderedUnique(a: seq<Member>, b: seq<Member>)
    requires StrictlyOrdered(a) && StrictlyOrdered(b)
    requires forall m :: m in a <==> m in b
    ensures a == b
  {
    if a != [] {
      assert a[0] in b;
      SameFirst(a, b);
      TailElements(a, b);
      StrictlyOrderedUnique(a[1..], b[1..]);
      assert a == [a[0]] + a[1..] && b == [b[0]] + b[1..];
    } else if b != [] {
      var m := SomeElement(b);
    }
  }

  lemma SomeElement(members: seq<Member>) returns (m: Member)
    requires members != []
    ensures m in members
  {
    m := members[0];
  }

  lemma MemberAntisymmetric(m: Member, n: Member)
    requires MemberAtMost(m, n) && MemberAtMost(n, m)
    ensures SameMembership(m, n)
  {
    if m.pack != n.pack {
      AtMostAntisymmetric(m.pack, n.pack);
    } else {
      AtMostAntisymmetric(m.content, n.content);
    }
  }

  lemma SameFirst(a: seq<Member>, b: seq<Member>)
    requires StrictlyOrdered(a) && StrictlyOrdered(b) && a != [] && b != []
    requires forall m :: m in a <==> m in b
    ensures a[0] == b[0]
  {
    assert a[0] in b && b[0] in a;
    var j :| 0 <= j < |b| && b[j] == a[0];
    var i :| 0 <= i < |a| && a[i] == b[0];
    if i != 0 && j != 0 {
      MemberAntisymmetric(a[0], b[0]);
    }
  }

  lemma TailElements(a: seq<Member>, b: seq<Member>)
    requires StrictlyOrdered(a) && StrictlyOrdered(b) && a != [] && b != [] && a[0] == b[0]
    requires forall m :: m in a <==> m in b
    ensures forall m :: m in a[1..] <==> m in b[1..]
  {
    forall m
      ensures m in a[1..] <==> m in b[1..]
    {
      TailElement(a, m);
      TailElement(b, m);
    }
  }

  lemma TailElement(a: seq<Member>, m: Member)
    requires StrictlyOrdered(a) && a != []
    ensures m in a[1..] <==> m in a && m != a[0]
  {
    if m in a && m != a[0] {
      var i :| 0 <= i < |a| && a[i] == m;
      assert a[1..][i - 1] == m;
    }
  }

  /** A pack that is not installed yet, installed. */
  ghost predicate NewlyInstalled(s: State, pack: PackInput, mid: Lock)
  {
    && Inv(s) && WellFormedPack(pack)
    && pack.id !in s.lock.items
    && PackInstalled(s.lock, pack, None, mid)
  }

  lemma NewPackRemaining(s: State, pack: PackInput)
    requires Inv(s)
    ensures Remaining(s.lock, None, MemberSpecs(pack)) == s.lock.members
    ensures CarriedIds(s.lock, None) == {}
    ensures TransitionRemovals(s.lock, None, MemberSpecs(pack)) == {}
  {
    KeepAll(s.lock.members, None);
    HeirsOfNone(s.lock.members, Orphans(s.lock.members, None, MemberSpecs(pack).Keys));
  }

  lemma NotYetPack(s: State, id: Id, m: Member)
    requires Inv(s) && id !in s.lock.items && m in s.lock.members
    ensures m.pack != id && m.content != id
  {
    assert Bound(s.lock, m);
  }

  /** Taking the new pack's memberships out again leaves the old list, in the old order. */
  lemma KeptAfterInstall(s: State, pack: PackInput, mid: Lock)
    requires NewlyInstalled(s, pack, mid)
    ensures Keep(mid.members, Some(pack.id)) == s.lock.members
  {
    var kept := Keep(mid.members, Some(pack.id));
    TransitionElements(s.lock, pack, None, mid.members);
    NewPackRemaining(s, pack);
    KeepStrictlyOrdered(mid.members, Some(pack.id));
    forall m
      ensures m in kept <==> m in s.lock.members
    {
      if m in s.lock.members {
        NotYetPack(s, pack.id, m);
      }
    }
    StrictlyOrderedUnique(kept, s.lock.members);
  }

  /** What the new pack owned is exactly what nobody had selected before. */
  lemma OrphansAfterInstall(s: State, pack: PackInput, mid: Lock, id: Id)
    requires NewlyInstalled(s, pack, mid)
    ensures id in Orphans(mid.members, Some(pack.id), {}) <==> id in pack.files && id !in s.lock.requested
    ensures id in s.lock.requested ==> id != pack.id
  {
    TransitionElements(s.lock, pack, None, mid.members);
    NewPackRemaining(s, pack);
    if id in pack.files {
      NewOwnership(s, pack, None, id);
      assert NewMember(s.lock, pack.id, None, MemberSpecs(pack), id)
          in NewMembers(s.lock, pack.id, None, MemberSpecs(pack));
    }
    if id in Orphans(mid.members, Some(pack.id), {}) {
      var m :| m in mid.members && m.pack == pack.id && m.ownsSelection && m.content == id;
      if m in s.lock.members {
        NotYetPack(s, pack.id, m);
      }
    }
  }

  lemma UnselectedUnlisted(s: State, id: Id)
    requires AllBound(s.lock) && id !in s.lock.requested
    ensures id !in Contents(s.lock.members)
  {
    forall m | m in s.lock.members
      ensures m.content != id
    {
      assert Bound(s.lock, m);
    }
  }

  lemma MembersRestored(s: State, pack: PackInput, mid: Lock, post: Lock)
    requires NewlyInstalled(s, pack, mid) && Removed(mid, pack.id, post)
    ensures mid.items[pack.id].kind == Modpack
    ensures post.members == s.lock.members
  {
    ResolutionUses(s.lock, PackReleases(pack), mid, Release(pack.id, pack.version, Modpack, Some(pack.source)));
    var orphans := Orphans(mid.members, Some(pack.id), {});
    KeptAfterInstall(s, pack, mid);
    forall m | m in s.lock.members
      ensures m.content !in orphans
    {
      assert Bound(s.lock, m);
      OrphansAfterInstall(s, pack, mid, m.content);
    }
    HeirsOfNone(s.lock.members, orphans);
  }

  lemma KeysAfterRemoval(mid: Lock, pack: Id, post: Lock, id: Id)
    requires Removed(mid, pack, post)
    ensures id in post.requested <==> id in mid.requested && id !in RemovalTargets(mid, pack)
  {
    ReconciledKeys(Without(mid.requested, RemovalTargets(mid, pack)), post.members);
  }

  lemma KeysAfterInstall(s: State, pack: PackInput, mid: Lock, id: Id)
    requires NewlyInstalled(s, pack, mid)
    ensures id in mid.requested <==> id in s.lock.requested || id == pack.id || id in pack.files
  {
    NewPackRemaining(s, pack);
    InstalledKeys(s, pack, None, mid, id);
  }

  lemma PackTargets(mid: Lock, pack: Id, id: Id)
    requires pack in mid.items && mid.items[pack].kind == Modpack
    ensures id in RemovalTargets(mid, pack)
       <==> id == pack || (id in Orphans(mid.members, Some(pack), {}) && id !in Contents(Keep(mid.members, Some(pack))))
  {
  }

  /** With the new pack go its own selection and those of its files that were not selected before. */
  lemma TargetsAfterInstall(s: State, pack: PackInput, mid: Lock, id: Id)
    requires NewlyInstalled(s, pack, mid) && pack.id in mid.items && mid.items[pack.id].kind == Modpack
    ensures id in RemovalTargets(mid, pack.id) <==> id == pack.id || (id in pack.files && id !in s.lock.requested)
    ensures id in s.lock.requested ==> id != pack.id
  {
    PackTargets(mid, pack.id, id);
    KeptAfterInstall(s, pack, mid);
    OrphansAfterInstall(s, pack, mid, id);
    if id !in s.lock.requested {
      UnselectedUnlisted(s, id);
    }
  }

  lemma KeyRestored(s: State, pack: PackInput, mid: Lock, post: Lock, id: Id)
    requires NewlyInstalled(s, pack, mid) && Removed(mid, pack.id, post)
    ensures id in post.requested <==> id in s.lock.requested
    ensures id in s.lock.requested ==> id in mid.requested
  {
    MembersRestored(s, pack, mid, post);
    KeysAfterRemoval(mid, pack.id, post, id);
    KeysAfterInstall(s, pack, mid, id);
    TargetsAfterInstall(s, pack, mid, id);
  }

  /** The new pack switches a file on if its index requires it. */
  predicate TurnsOn(pack: PackInput, id: Id)
  {
    id in pack.files && pack.files[id].enabled
  }

  /** An installed pack's switch is untouched by the installation and the removal. */
  lemma OldPackSwitch(s: State, pack: PackInput, mid: Lock, m: Member)
    requires NewlyInstalled(s, pack, mid) && m in s.lock.members
    ensures m.pack in s.lock.requested && m.pack in mid.requested && m.pack in MergedAfter(s.lock, pack, None)
    ensures MergedAfter(s.lock, pack, None)[m.pack] == s.lock.requested[m.pack]
    ensures mid.requested[m.pack] == s.lock.requested[m.pack]
  {
    assert Bound(s.lock, m);
    NotYetPack(s, pack.id, m);
    NewPackRemaining(s, pack);
    InstalledKeys(s, pack, None, mid, m.pack);
    if m.pack in pack.files {
      FileIsNoPack(s.lock, pack, m.pack);
    }
    TransitionContent(s, pack, None, mid.members, m.pack);
    KeepAll(s.lock.members, None);
    PackIsNoContent(s.lock, m.pack);
  }

  /** The old packs demand what they did; the new one demands the files it requires. */
  lemma OldDemand(s: State, pack: PackInput, mid: Lock, id: Id)
    requires NewlyInstalled(s, pack, mid)
    ensures Demanded(MergedAfter(s.lock, pack, None), s.lock.members, id)
       <==> Demanded(s.lock.requested, s.lock.members, id)
  {
    forall m | m in s.lock.members
      ensures Demands(MergedAfter(s.lock, pack, None), m) <==> Demands(s.lock.requested, m)
    {
      OldPackSwitch(s, pack, mid, m);
    }
  }

  lemma NewDemand(s: State, pack: PackInput, id: Id)
    requires id in pack.files && pack.id !in pack.files
    ensures Demands(MergedAfter(s.lock, pack, None), NewMember(s.lock, pack.id, None, MemberSpecs(pack), id))
       <==> TurnsOn(pack, id)
  {
    NewPackIsOn(s, pack, NewMember(s.lock, pack.id, None, MemberSpecs(pack), id));
  }

  lemma DemandSplit(requested: map<Id, Selection>, members: seq<Member>, before: seq<Member>, added: set<Member>, id: Id)
    requires forall m :: m in members <==> m in before || m in added
    ensures Demanded(requested, members, id) <==>
            || Demanded(requested, before, id)
            || exists m :: m in added && m.content == id && Demands(requested, m)
  {
  }

  lemma DemandAfterInstall(s: State, pack: PackInput, mid: Lock, id: Id)
    requires NewlyInstalled(s, pack, mid)
    ensures Demanded(MergedAfter(s.lock, pack, None), mid.members, id)
       <==> Demanded(s.lock.requested, s.lock.members, id) || TurnsOn(pack, id)
  {
    var merged, added := MergedAfter(s.lock, pack, None), NewMembers(s.lock, pack.id, None, MemberSpecs(pack));
    TransitionElements(s.lock, pack, None, mid.members);
    NewPackRemaining(s, pack);
    DemandSplit(merged, mid.members, s.lock.members, added, id);
    OldDemand(s, pack, mid, id);
    AddedDemand(s, pack, id);
  }

  lemma AddedDemand(s: State, pack: PackInput, id: Id)
    requires WellFormedPack(pack) && ConsistentCatalog(Catalog(s.lock.items, PackReleases(pack)))
    ensures var merged, added := MergedAfter(s.lock, pack, None), NewMembers(s.lock, pack.id, None, MemberSpecs(pack));
            (exists m :: m in added && m.content == id && Demands(merged, m)) <==> TurnsOn(pack, id)
  {
    if id in pack.files {
      FileIsNoPack(s.lock, pack, id);
      if pack.id in pack.files {
        FileIsNoPack(s.lock, pack, pack.id);
      }
      NewDemand(s, pack, id);
      assert NewMember(s.lock, pack.id, None, MemberSpecs(pack), id)
          in NewMembers(s.lock, pack.id, None, MemberSpecs(pack));
    }
  }

  lemma NewPackIsOn(s: State, pack: PackInput, n: Member)
    requires pack.id !in pack.files && n.pack == pack.id
    ensures Demands(MergedAfter(s.lock, pack, None), n) <==> n.enabledByDefault
  {
  }

  lemma OldPackAfterRemoval(s: State, pack: PackInput, mid: Lock, post: Lock, m: Member)
    requires NewlyInstalled(s, pack, mid) && Removed(mid, pack.id, post) && m in s.lock.members
    ensures Demands(Without(mid.requested, RemovalTargets(mid, pack.id)), m) <==> Demands(s.lock.requested, m)
  {
    OldPackSwitch(s, pack, mid, m);
    KeyRestored(s, pack, mid, post, m.pack);
    KeysAfterRemoval(mid, pack.id, post, m.pack);
  }

  lemma DemandAfterRemoval(s: State, pack: PackInput, mid: Lock, post: Lock, id: Id)
    requires NewlyInstalled(s, pack, mid) && Removed(mid, pack.id, post)
    ensures Demanded(Without(mid.requested, RemovalTargets(mid, pack.id)), s.lock.members, id)
       <==> Demanded(s.lock.requested, s.lock.members, id)
  {
    forall m | m in s.lock.members
      ensures Demands(Without(mid.requested, RemovalTargets(mid, pack.id)), m) <==> Demands(s.lock.requested, m)
    {
      OldPackAfterRemoval(s, pack, mid, post, m);
    }
  }

  /** Who owns an earlier selection does not change when a new pack lists it too. */
  lemma OwnershipUnmoved(s: State, pack: PackInput, mid: Lock, id: Id)
    requires NewlyInstalled(s, pack, mid) && id in s.lock.requested
    ensures Owned(mid.members, id) <==> Owned(s.lock.members, id)
    ensures id in Contents(mid.members) <==> id in Contents(s.lock.members) || id in pack.files
  {
    TransitionOwned(s, pack, None, mid.members, id);
    TransitionContent(s, pack, None, mid.members, id);
    NewPackRemaining(s, pack);
    KeepAll(s.lock.members, None);
    if id in pack.files {
      NewOwnership(s, pack, None, id);
    }
  }

  /** What reconciling makes of the switch of an old selection. */
  lemma SwitchAtInstall(s: State, pack: PackInput, mid: Lock, id: Id)
    requires NewlyInstalled(s, pack, mid) && id in s.lock.requested && id in mid.requested
    ensures mid.requested[id].enabled
       <==> if id in Contents(mid.members)
            then (!Owned(mid.members, id) && s.lock.requested[id].enabled)
                 || Demanded(MergedAfter(s.lock, pack, None), mid.members, id)
            else s.lock.requested[id].enabled
  {
    NewPackRemaining(s, pack);
  }

  lemma SwitchAfterInstall(s: State, pack: PackInput, mid: Lock, id: Id)
    requires NewlyInstalled(s, pack, mid) && id in s.lock.requested && id in mid.requested
    ensures mid.requested[id].enabled <==> s.lock.requested[id].enabled || TurnsOn(pack, id)
  {
    OwnershipUnmoved(s, pack, mid, id);
    DemandAfterInstall(s, pack, mid, id);
    SwitchAtInstall(s, pack, mid, id);
    if id in Contents(s.lock.members) {
      SwitchMeaning(s, id);
    } else {
      UnlistedUnowned(s.lock, id);
      assert !Demanded(s.lock.requested, s.lock.members, id);
    }
  }

  /** The switch is back as it was, except that a manual selection the pack turned on stays on. */
  ghost predicate SwitchBack(pre: Lock, pack: PackInput, post: Lock, id: Id)
  {
    && id in pre.requested && id in post.requested
    && (post.requested[id].enabled <==> pre.requested[id].enabled || (TurnsOn(pack, id) && !Owned(pre.members, id)))
  }

  /**
   * Installing a new pack and removing it restores the selected keys and the memberships exactly,
   * and every switch of owned content; a manual selection the pack turned on stays on.
   */
  lemma InstallThenRemove(s: State, pack: PackInput, mid: Lock, post: Lock)
    requires NewlyInstalled(s, pack, mid) && Removed(mid, pack.id, post)
    ensures forall id :: id in post.requested <==> id in s.lock.requested
    ensures post.members == s.lock.members
    ensures forall id :: id in s.lock.requested ==> SwitchBack(s.lock, pack, post, id)
  {
    MembersRestored(s, pack, mid, post);
    forall id
      ensures id in post.requested <==> id in s.lock.requested
      ensures id in s.lock.requested ==> SwitchBack(s.lock, pack, post, id)
    {
      KeyRestored(s, pack, mid, post, id);
      if id in s.lock.requested {
        SwitchRestored(s, pack, mid, post, id);
      }
    }
  }

  /** A removed pack leaves each selection to the memberships that stay. */
  lemma SelectionAfterRemoval(mid: Lock, pack: Id, post: Lock, id: Id)
    requires Removed(mid, pack, post) && id in post.requested
    ensures id in mid.requested
    ensures post.requested[id].enabled
            <==> if id in Contents(post.members)
                 then (!Owned(post.members, id) && mid.requested[id].enabled)
                      || Demanded(Without(mid.requested, RemovalTargets(mid, pack)), post.members, id)
                 else mid.requested[id].enabled
  {
    KeysAfterRemoval(mid, pack, post, id);
  }

  /** What the removal makes of a selection that was there from the start. */
  lemma SwitchAfterRemoval(s: State, pack: PackInput, mid: Lock, post: Lock, id: Id)
    requires NewlyInstalled(s, pack, mid) && Removed(mid, pack.id, post) && id in s.lock.requested
    ensures id in mid.requested && id in post.requested
    ensures post.requested[id].enabled
            <==> if id in Contents(s.lock.members)
                 then (!Owned(s.lock.members, id) && mid.requested[id].enabled)
                      || Demanded(s.lock.requested, s.lock.members, id)
                 else mid.requested[id].enabled
  {
    MembersRestored(s, pack, mid, post);
    KeyRestored(s, pack, mid, post, id);
    DemandAfterRemoval(s, pack, mid, post, id);
    SelectionAfterRemoval(mid, pack.id, post, id);
  }

  lemma SwitchRestored(s: State, pack: PackInput, mid: Lock, post: Lock, id: Id)
    requires NewlyInstalled(s, pack, mid) && Removed(mid, pack.id, post) && id in s.lock.requested
    ensures SwitchBack(s.lock, pack, post, id)
  {
    SwitchAfterRemoval(s, pack, mid, post, id);
    SwitchAfterInstall(s, pack, mid, id);
    if id in Contents(s.lock.members) {
      SwitchMeaning(s, id);
    } else {
      UnlistedUnowned(s.lock, id);
    }
  }

  // ----- Versions -------------------------------------------------------------------------------------

  /** Only the pack itself, and content the replaced pack owned, can change version. */
  lemma VersionsPinned(s: State, pack: PackInput, previous: Option<Id>, post: Lock, id: Id)
    requires WellFormedPack(pack) && PackInstalled(s.lock, pack, previous, post)
    requires id in s.lock.items && id in post.items && id != pack.id
    requires post.items[id].version != s.lock.items[id].version
    ensures id in CarriedIds(s.lock, previous)
    ensures id in pack.files && post.items[id].version == pack.files[id].version
  {
    ChangedRelease(s.lock, pack, post, id);
    assert NoClash(MemberSpecs(pack), s.lock.items, CarriedIds(s.lock, previous),
                   Remaining(s.lock, previous, MemberSpecs(pack)), id);
  }

  /** A changed version can only come from one of the pack's releases. */
  lemma ChangedRelease(pre: Lock, pack: PackInput, post: Lock, id: Id)
    requires Resolution(Catalog(pre.items, PackReleases(pack)), post.requested, post.items)
    requires id in pre.items && id in post.items && id != pack.id
    requires post.items[id].version != pre.items[id].version
    ensures id in pack.files && post.items[id].version == pack.files[id].version
  {
    assert ReleaseOf(id, post.items[id]) in Catalog(pre.items, PackReleases(pack));
    assert ReleaseOf(id, post.items[id]) in PackReleases(pack);
  }
}
