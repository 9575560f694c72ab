/** Concrete runs: one pack with one file, an update to another release, and items that need each other. */
module PackScenario {
  import opened Wrappers
  import opened Ordering
  import opened ContentModel
  import opened PackMembership
  import opened PackOperations
  import opened PackOwnership

  datatype Names = Names(pack: Id, packVersion: Version, content: Id, version: Version)
  {
    function Input(): PackInput
    {
      PackInput(pack, packVersion, Local, map[content := PackFile(version, Mod, true)])
    }

    function PackItem(): Item
    {
      Item(packVersion, Modpack, true, Some(Local), [])
    }

    function ContentItem(): Item
    {
      Item(version, Mod, true, Some(Modrinth(content, version)), [])
    }

    function Membership(owned: bool): Member
    {
      Member(pack, content, version, true, owned)
    }

    function Requested(): map<Id, Selection>
    {
      map[pack := Selection(Exact(packVersion), true), content := Selection(Exact(version), true)]
    }

    function Items(): map<Id, Item>
    {
      map[pack := PackItem(), content := ContentItem()]
    }

    /** The pack is installed and owns the selection of its file. */
    function Installed(): State
    {
      State(Lock(Requested(), Items(), [Membership(true)]), {})
    }

    /** The user has switched the file on directly. */
    function Claimed(): State
    {
      State(Lock(Requested(), Items(), [Membership(false)]), {content})
    }

    /** The user has selected the file without the pack, and switched it off. */
    function SwitchedOff(): State
    {
      State(Lock(map[content := Selection(Exact(version), false)], map[content := ContentItem().(enabled := false)], []),
            {content})
    }

    /** Only the file is left. */
    function Kept(): State
    {
      State(Lock(map[content := Selection(Exact(version), true)], map[content := ContentItem()], []), {content})
    }
  }

  /** In an empty profile there is nothing to hand over. */
  lemma NothingBefore(n: Names)
    requires n.pack != n.content
    ensures var specs := MemberSpecs(n.Input());
            && specs == map[n.content := MemberSpec(n.version, true)]
            && Remaining(EMPTY_LOCK, None, specs) == []
            && CarriedIds(EMPTY_LOCK, None) == {}
            && TransitionRemovals(EMPTY_LOCK, None, specs) == {}
            && StillRequested(EMPTY_LOCK, None, specs) == {}
  {
    assert Keep(EMPTY_LOCK.members, None) == [];
  }

  lemma FirstMembers(n: Names)
    requires n.pack != n.content
    ensures NewMembers(EMPTY_LOCK, n.pack, None, MemberSpecs(n.Input())) == {n.Membership(true)}
  {
    NothingBefore(n);
    var specs := MemberSpecs(n.Input());
    assert n.content in specs;
    assert Joining(n.pack, n.content, specs[n.content], {}, {}, []) == n.Membership(true);
  }

  lemma FirstAllowed(n: Names)
    requires n.pack != n.content
    ensures TransitionAllowed(EMPTY_LOCK, n.pack, None, MemberSpecs(n.Input()))
  {
    NothingBefore(n);
    var specs := MemberSpecs(n.Input());
    assert |specs| == 1;
    assert ResultingSelections(EMPTY_LOCK, n.pack, None, specs) == {n.pack, n.content};
  }

  lemma FirstTransition(n: Names)
    requires n.pack != n.content
    ensures TransitionedTo(EMPTY_LOCK, n.Input(), None, [n.Membership(true)])
  {
    NothingBefore(n);
    FirstMembers(n);
    FirstAllowed(n);
    var m := n.Membership(true);
    assert multiset([m]) == multiset([]) + multiset({m});
  }

  lemma FirstSelections(n: Names)
    requires n.pack != n.content
    ensures MergedAfter(EMPTY_LOCK, n.Input(), None) == n.Requested()
  {
    var specs := MemberSpecs(n.Input());
    assert TransitionRemovals(EMPTY_LOCK, None, specs) == {};
  }

  lemma StaysReconciled(n: Names, owned: bool)
    requires n.pack != n.content
    ensures Reconciled(n.Requested(), [n.Membership(owned)]) == n.Requested()
  {
    var members := [n.Membership(owned)];
    assert members[0] in members;
    assert Contents(members) == {n.content};
    assert Demands(n.Requested(), members[0]);
  }

  lemma Resolves(n: Names, added: set<Release>)
    requires n.pack != n.content
    requires added <= {ReleaseOf(n.pack, n.PackItem()), ReleaseOf(n.content, n.ContentItem())}
    ensures Resolution(Catalog(n.Items(), added), n.Requested(), n.Items())
  {
  }

  lemma FirstResolution(n: Names)
    requires n.pack != n.content
    ensures Resolution(Catalog(EMPTY_LOCK.items, PackReleases(n.Input())), n.Requested(), n.Items())
  {
    var files := set id | id in n.Input().files :: FileRelease(id, n.Input().files[id]);
    assert files == {ReleaseOf(n.content, n.ContentItem())} by {
      assert n.content in n.Input().files;
    }
    assert Catalog(EMPTY_LOCK.items, PackReleases(n.Input()))
        == {ReleaseOf(n.pack, n.PackItem()), ReleaseOf(n.content, n.ContentItem())};
  }

  lemma InstalledIsValid(n: Names, owned: bool)
    requires n.pack != n.content
    ensures ValidMembers(Lock(n.Requested(), n.Items(), [n.Membership(owned)]))
  {
  }

  lemma FirstReconciled(n: Names)
    requires n.pack != n.content
    ensures n.Requested() == Reconciled(MergedAfter(EMPTY_LOCK, n.Input(), None), [n.Membership(true)])
  {
    FirstSelections(n);
    StaysReconciled(n, true);
  }

  /** The pack can be installed, and owns what it brought. */
  lemma FirstInstall(n: Names)
    requires n.pack != n.content
    ensures Step(START, InstallPack(n.Input(), None), n.Installed())
  {
    FirstTransition(n);
    FirstReconciled(n);
    FirstResolution(n);
    InstalledIsValid(n, true);
    assert WellFormedPack(n.Input());
  }

  lemma NothingRequires(n: Names, id: Id)
    ensures !RequiredByEnabledItem(n.Items(), id)
  {
  }

  /** Removing the pack takes the file it owned with it. */
  lemma OwnedGoes(n: Names)
    requires n.pack != n.content
    ensures Step(n.Installed(), Remove(n.pack), START)
  {
    var lock := n.Installed().lock;
    NothingRequires(n, n.pack);
    assert lock.members[0] in lock.members;
    assert Keep(lock.members, Some(n.pack)) == [] by {
      assert lock.members[1..] == [];
    }
    assert Orphans(lock.members, Some(n.pack), {}) == {n.content};
    assert RemovalTargets(lock, n.pack) == {n.pack, n.content};
    assert Without(lock.requested, RemovalTargets(lock, n.pack)) == map[];
    assert Reconciled(map[], []) == map[];
  }

  /** Switching the file on directly, though it is on already, claims it. */
  lemma SwitchClaims(n: Names)
    requires n.pack != n.content
    ensures Step(n.Installed(), SetEnabled(n.content, true), n.Claimed())
  {
    var lock := n.Installed().lock;
    assert lock.members[0] in lock.members;
    assert n.content in Contents(lock.members);
    assert Disowned(lock.members, n.content) == [n.Membership(false)];
    assert Switched(lock, n.content, true) == n.Requested();
    StaysReconciled(n, false);
    Resolves(n, {});
    InstalledIsValid(n, false);
  }

  lemma KeptResolves(n: Names)
    requires n.pack != n.content
    ensures Resolution(Catalog(n.Items(), {}), n.Kept().lock.requested, n.Kept().lock.items)
    ensures ValidMembers(n.Kept().lock)
  {
    assert n.content in n.Items() && n.Items()[n.content] == n.ContentItem();
    assert ReleaseOf(n.content, n.ContentItem()) in Catalog(n.Items(), {});
    Resolves(n, {});
  }

  lemma NothingOwned(n: Names)
    requires n.pack != n.content
    ensures MembersAfterRemoval(n.Claimed().lock, n.pack) == []
    ensures RemovalTargets(n.Claimed().lock, n.pack) == {n.pack}
  {
    var lock := n.Claimed().lock;
    assert Keep(lock.members, Some(n.pack)) == [] by {
      assert lock.members[1..] == [];
    }
    assert Orphans(lock.members, Some(n.pack), {}) == {};
  }

  /** After that, removing the pack leaves the file. */
  lemma ClaimedStays(n: Names)
    requires n.pack != n.content
    ensures Step(n.Claimed(), Remove(n.pack), n.Kept())
  {
    NothingRequires(n, n.pack);
    NothingOwned(n);
    KeptResolves(n);
    KeptSelections(n);
  }

  lemma KeptSelections(n: Names)
    requires n.pack != n.content
    ensures Reconciled(Without(n.Requested(), {n.pack}), []) == n.Kept().lock.requested
  {
    assert Without(n.Requested(), {n.pack}) == n.Kept().lock.requested;
  }

  // ----- A switch that a modpack turns on for good --------------------------------------------------------------

  lemma NothingToHandOver(n: Names)
    requires n.pack != n.content
    ensures var lock, specs := n.SwitchedOff().lock, MemberSpecs(n.Input());
            && specs == map[n.content := MemberSpec(n.version, true)]
            && Remaining(lock, None, specs) == []
            && CarriedIds(lock, None) == {}
            && TransitionRemovals(lock, None, specs) == {}
            && StillRequested(lock, None, specs) == {n.content}
  {
    assert Keep(n.SwitchedOff().lock.members, None) == [];
  }

  lemma AddedMembers(n: Names)
    requires n.pack != n.content
    ensures NewMembers(n.SwitchedOff().lock, n.pack, None, MemberSpecs(n.Input())) == {n.Membership(false)}
  {
    NothingToHandOver(n);
    var specs := MemberSpecs(n.Input());
    assert n.content in specs;
    assert Joining(n.pack, n.content, specs[n.content], {}, {n.content}, []) == n.Membership(false);
  }

  lemma AddedTransition(n: Names)
    requires n.pack != n.content
    ensures TransitionedTo(n.SwitchedOff().lock, n.Input(), None, [n.Membership(false)])
  {
    var lock, specs := n.SwitchedOff().lock, MemberSpecs(n.Input());
    NothingToHandOver(n);
    AddedMembers(n);
    assert |specs| == 1;
    assert ResultingSelections(lock, n.pack, None, specs) == {n.pack, n.content};
    var m := n.Membership(false);
    assert multiset([m]) == multiset([]) + multiset({m});
  }

  lemma AddedSelections(n: Names)
    requires n.pack != n.content
    ensures Reconciled(MergedAfter(n.SwitchedOff().lock, n.Input(), None), [n.Membership(false)]) == n.Requested()
  {
    var members, merged := [n.Membership(false)], MergedAfter(n.SwitchedOff().lock, n.Input(), None);
    NothingToHandOver(n);
    assert merged.Keys == {n.pack, n.content};
    assert members[0] in members;
    assert Contents(members) == {n.content};
    assert Demands(merged, members[0]);
  }

  lemma AddedResolution(n: Names)
    requires n.pack != n.content
    ensures Resolution(Catalog(n.SwitchedOff().lock.items, PackReleases(n.Input())), n.Requested(), n.Items())
  {
    var lock := n.SwitchedOff().lock;
    var files := set id | id in n.Input().files :: FileRelease(id, n.Input().files[id]);
    assert files == {ReleaseOf(n.content, n.ContentItem())} by {
      assert n.content in n.Input().files;
    }
    assert n.content in lock.items && ReleaseOf(n.content, lock.items[n.content]) == ReleaseOf(n.content, n.ContentItem());
    assert Catalog(lock.items, PackReleases(n.Input()))
        == {ReleaseOf(n.pack, n.PackItem()), ReleaseOf(n.content, n.ContentItem())};
  }

  /** The user's own selection, switched off, is turned on by a pack that lists the file, and stays on without it. */
  lemma TurnedOnStaysOn(n: Names)
    requires n.pack != n.content
    ensures Step(n.SwitchedOff(), InstallPack(n.Input(), None), n.Claimed()) && Step(n.Claimed(), Remove(n.pack), n.Kept())
    ensures !n.SwitchedOff().lock.requested[n.content].enabled && n.Kept().lock.requested[n.content].enabled
  {
    AddedTransition(n);
    AddedSelections(n);
    AddedResolution(n);
    InstalledIsValid(n, false);
    assert WellFormedPack(n.Input());
    ClaimedStays(n);
  }

  // ----- Updating a pack from Modrinth --------------------------------------------------------------------------

  /** One project's pack in two releases; the first lists `a`, the second `a` at another version, or only `b`. */
  datatype Releases = Releases(pack: Id, first: Version, second: Version, a: Id, a1: Version, a2: Version, b: Id, b1: Version)
  {
    predicate Apart()
    {
      pack != a && pack != b && a != b && first != second && a1 != a2
    }

    function PackItem(release: Version): Item
    {
      Item(release, Modpack, true, Some(Modrinth(pack, release)), [])
    }

    function ContentItem(id: Id, version: Version): Item
    {
      Item(version, Mod, true, Some(Modrinth(id, version)), [])
    }

    function Input(release: Version, id: Id, version: Version): PackInput
    {
      PackInput(pack, release, Modrinth(pack, release), map[id := PackFile(version, Mod, true)])
    }

    /** This release is installed and owns the file it lists. */
    function Installed(release: Version, id: Id, version: Version): State
    {
      State(Lock(map[pack := Selection(Exact(release), true), id := Selection(Exact(version), true)],
                 map[pack := PackItem(release), id := ContentItem(id, version)],
                 [Member(pack, id, version, true, true)]),
            {})
    }
  }

  /** The installed release is replaced by the other one, and with it what it owned and the new one drops. */
  lemma Replacing(r: Releases, id: Id, version: Version)
    requires r.Apart() && (id == r.a || id == r.b)
    ensures var pre, pack := r.Installed(r.first, r.a, r.a1).lock, r.Input(r.second, id, version);
            && IsPreviousPack(pre.items, Some(pack.source), Some(r.pack))
            && Remaining(pre, Some(r.pack), MemberSpecs(pack)) == []
            && CarriedIds(pre, Some(r.pack)) == {r.a}
            && TransitionRemovals(pre, Some(r.pack), MemberSpecs(pack)) == (if id == r.a then {r.pack} else {r.pack, r.a})
  {
    var pre, pack := r.Installed(r.first, r.a, r.a1).lock, r.Input(r.second, id, version);
    AtMostReflexive(r.pack);
    assert pre.members[0] in pre.members;
    assert Keep(pre.members, Some(r.pack)) == [] by {
      assert pre.members[1..] == [];
    }
  }

  lemma ReplacingMembers(r: Releases, id: Id, version: Version)
    requires r.Apart() && (id == r.a || id == r.b)
    ensures var pre, pack := r.Installed(r.first, r.a, r.a1).lock, r.Input(r.second, id, version);
            NewMembers(pre, r.pack, Some(r.pack), MemberSpecs(pack)) == {Member(r.pack, id, version, true, true)}
  {
    var pre, pack := r.Installed(r.first, r.a, r.a1).lock, r.Input(r.second, id, version);
    var specs := MemberSpecs(pack);
    Replacing(r, id, version);
    assert id in specs;
    assert NewMember(pre, r.pack, Some(r.pack), specs, id) == Member(r.pack, id, version, true, true);
  }

  lemma ReplacingNoClash(r: Releases, id: Id, version: Version)
    requires r.Apart() && (id == r.a || id == r.b)
    ensures var pre, specs := r.Installed(r.first, r.a, r.a1).lock, MemberSpecs(r.Input(r.second, id, version));
            id in specs && NoClash(specs, pre.items, {r.a}, [], id)
  {
  }

  lemma ReplacingCounts(r: Releases, id: Id, version: Version)
    requires r.Apart() && (id == r.a || id == r.b)
    ensures var pre, specs := r.Installed(r.first, r.a, r.a1).lock, MemberSpecs(r.Input(r.second, id, version));
            && specs.Keys == {id} && |specs| == 1
            && ResultingSelections(pre, r.pack, Some(r.pack), specs) == {r.pack, id}
  {
    var pre, specs := r.Installed(r.first, r.a, r.a1).lock, MemberSpecs(r.Input(r.second, id, version));
    Replacing(r, id, version);
    assert specs.Keys == {id};
    assert |specs| == |specs.Keys|;
  }

  lemma ReplacingAllowed(r: Releases, id: Id, version: Version)
    requires r.Apart() && (id == r.a || id == r.b)
    ensures var pre, pack := r.Installed(r.first, r.a, r.a1).lock, r.Input(r.second, id, version);
            TransitionAllowed(pre, r.pack, Some(r.pack), MemberSpecs(pack))
  {
    Replacing(r, id, version);
    ReplacingNoClash(r, id, version);
    ReplacingCounts(r, id, version);
  }

  lemma ReplacingTransition(r: Releases, id: Id, version: Version)
    requires r.Apart() && (id == r.a || id == r.b)
    ensures var pre, pack := r.Installed(r.first, r.a, r.a1).lock, r.Input(r.second, id, version);
            TransitionedTo(pre, pack, Some(r.pack), [Member(r.pack, id, version, true, true)])
  {
    var m := Member(r.pack, id, version, true, true);
    Replacing(r, id, version);
    ReplacingMembers(r, id, version);
    ReplacingAllowed(r, id, version);
    assert multiset([m]) == multiset([]) + multiset({m});
  }

  lemma ReplacingSelections(r: Releases, id: Id, version: Version)
    requires r.Apart() && (id == r.a || id == r.b)
    ensures var pre, pack := r.Installed(r.first, r.a, r.a1).lock, r.Input(r.second, id, version);
            var members := [Member(r.pack, id, version, true, true)];
            Reconciled(MergedAfter(pre, pack, Some(r.pack)), members) == r.Installed(r.second, id, version).lock.requested
  {
    var pre, pack := r.Installed(r.first, r.a, r.a1).lock, r.Input(r.second, id, version);
    var members := [Member(r.pack, id, version, true, true)];
    var merged := MergedAfter(pre, pack, Some(r.pack));
    Replacing(r, id, version);
    assert merged.Keys == {r.pack, id};
    assert members[0] in members;
    assert Contents(members) == {id};
    assert Demands(merged, members[0]);
  }

  lemma UpdateCatalog(r: Releases, id: Id, version: Version, x: Release)
    requires r.Apart() && (id == r.a || id == r.b)
    ensures x in Catalog(r.Installed(r.first, r.a, r.a1).lock.items, PackReleases(r.Input(r.second, id, version)))
       <==> || x == ReleaseOf(r.pack, r.PackItem(r.first)) || x == ReleaseOf(r.a, r.ContentItem(r.a, r.a1))
            || x == ReleaseOf(r.pack, r.PackItem(r.second)) || x == ReleaseOf(id, r.ContentItem(id, version))
  {
    var items, pack := r.Installed(r.first, r.a, r.a1).lock.items, r.Input(r.second, id, version);
    assert r.pack in items && r.a in items && id in pack.files;
    if x == ReleaseOf(id, r.ContentItem(id, version)) {
      assert x == FileRelease(id, pack.files[id]);
    }
  }

  lemma UpdateCatalogConsistent(r: Releases, id: Id, version: Version)
    requires r.Apart() && ((id == r.a && version == r.a2) || (id == r.b && version == r.b1))
    ensures ConsistentCatalog(Catalog(r.Installed(r.first, r.a, r.a1).lock.items, PackReleases(r.Input(r.second, id, version))))
  {
    var catalog := Catalog(r.Installed(r.first, r.a, r.a1).lock.items, PackReleases(r.Input(r.second, id, version)));
    forall x, y | x in catalog && y in catalog && x.id == y.id
      ensures x.kind == y.kind && (x.version == y.version ==> x == y)
    {
      UpdateCatalog(r, id, version, x);
      UpdateCatalog(r, id, version, y);
    }
  }

  lemma ReplacingResolution(r: Releases, id: Id, version: Version)
    requires r.Apart() && ((id == r.a && version == r.a2) || (id == r.b && version == r.b1))
    ensures var pre, post := r.Installed(r.first, r.a, r.a1).lock, r.Installed(r.second, id, version).lock;
            Resolution(Catalog(pre.items, PackReleases(r.Input(r.second, id, version))), post.requested, post.items)
  {
    UpdateCatalogConsistent(r, id, version);
    UpdateCatalog(r, id, version, ReleaseOf(r.pack, r.PackItem(r.second)));
    UpdateCatalog(r, id, version, ReleaseOf(id, r.ContentItem(id, version)));
  }

  lemma ReplacedIsValid(r: Releases, id: Id, version: Version)
    requires r.Apart() && (id == r.a || id == r.b)
    ensures ValidMembers(r.Installed(r.second, id, version).lock)
    ensures WellFormedPack(r.Input(r.second, id, version))
  {
  }

  /**
   * Importing the second release replaces the first: a file listed again moves to the new version,
   * and one that is dropped leaves with the release that owned it.
   */
  lemma UpdateReplaces(r: Releases, id: Id, version: Version)
    requires r.Apart() && ((id == r.a && version == r.a2) || (id == r.b && version == r.b1))
    ensures Step(r.Installed(r.first, r.a, r.a1), InstallPack(r.Input(r.second, id, version), Some(r.pack)),
                 r.Installed(r.second, id, version))
  {
    ReplacingTransition(r, id, version);
    ReplacingSelections(r, id, version);
    ReplacingResolution(r, id, version);
    ReplacedIsValid(r, id, version);
  }

  // ----- Items that need each other -----------------------------------------------------------------------------

  /** Two enabled contents, the second depending on the first. */
  function Depending(kind: DependencyKind, enabled: bool): Lock
  {
    Lock(map["sodium" := Selection(Exact("1"), enabled), "extra" := Selection(Exact("1"), true)],
         map["sodium" := Item("1", Mod, enabled, Some(Local), []),
             "extra" := Item("1", Mod, true, Some(Local), [Dependency("sodium", kind, true)])],
         [])
  }

  /** Switching off or removing what an enabled content requires is refused. */
  lemma RequiredStays()
    ensures RequiredByEnabledItem(Depending(Required, true).items, "sodium")
    ensures forall post :: !Toggled(Depending(Required, true), "sodium", false, post)
                           && !Removed(Depending(Required, true), "sodium", post)
  {
    var items := Depending(Required, true).items;
    assert Dependency("sodium", Required, true) in items["extra"].dependencies;
    assert RequiresItem(items["extra"], "sodium");
  }

  lemma DependingCatalog(kind: DependencyKind, enabled: bool, x: Release)
    ensures x in Catalog(Depending(kind, enabled).items, {})
       <==> x == Release("sodium", "1", Mod, Some(Local)) || x == Release("extra", "1", Mod, Some(Local))
  {
    var items := Depending(kind, enabled).items;
    assert "sodium" in items && "extra" in items;
  }

  lemma OptionalResolves()
    ensures Resolution(Catalog(Depending(Optional, true).items, {}), Depending(Optional, false).requested,
                       Depending(Optional, false).items)
  {
    forall x
      ensures x in Catalog(Depending(Optional, true).items, {})
         <==> x == Release("sodium", "1", Mod, Some(Local)) || x == Release("extra", "1", Mod, Some(Local))
    {
      DependingCatalog(Optional, true, x);
    }
  }

  lemma OptionalNotNeeded()
    ensures !RequiredByEnabledItem(Depending(Optional, true).items, "sodium")
  {
  }

  /** What it only recommends can be switched off. */
  lemma OptionalGoes()
    ensures Step(State(Depending(Optional, true), {"sodium", "extra"}), SetEnabled("sodium", false),
                 State(Depending(Optional, false), {"sodium", "extra"}))
  {
    OptionalNotNeeded();
    OptionalResolves();
    OptionalSwitched();
  }

  lemma OptionalSwitched()
    ensures var pre, post := Depending(Optional, true), Depending(Optional, false);
            post.requested == Reconciled(Switched(pre, "sodium", false), []) && ValidMembers(post)
  {
    var pre, post := Depending(Optional, true), Depending(Optional, false);
    assert Switched(pre, "sodium", false) == post.requested;
    assert Reconciled(post.requested, []) == post.requested;
  }
}
