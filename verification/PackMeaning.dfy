/**
 * What the operations on packs do, told by the fields of the lock alone: which pack is replaced,
 * who inherits what, which memberships and selections there are afterwards, and why an operation
 * is refused.
 */
module PackMeaning {
  import opened Wrappers
  import opened Ordering
  import opened ContentModel
  import opened PackMembership
  import opened PackOperations
  import opened PackOwnership
  import opened PackInstallation
  import opened PackLifecycle

  // ----- Which pack is replaced -------------------------------------------------------------------------

  /** An installed pack of this Modrinth project, whatever its release. */
  predicate PackOf(item: Item, project: Id)
  {
    item.kind == Modpack && item.source.Some? && item.source.value.Modrinth? && item.source.value.project == project
  }

  /** A pack from Modrinth replaces the first installed pack of its project; a local one replaces nothing. */
  lemma PreviousPack(items: map<Id, Item>, source: Source, previous: Option<Id>)
    requires IsPreviousPack(items, Some(source), previous)
    ensures source.Local? ==> previous.None?
    ensures source.Modrinth? ==> (previous.None? <==> forall id :: id in items ==> !PackOf(items[id], source.project))
    ensures previous.Some? ==>
              && source.Modrinth? && previous.value in items && PackOf(items[previous.value], source.project)
              && forall id :: id in items && PackOf(items[id], source.project) ==> AtMost(previous.value, id)
  {
    forall id | id in items && source.Modrinth?
      ensures ReplacedBy(items[id], Some(source)) <==> PackOf(items[id], source.project)
    {
    }
  }

  // ----- Who inherits --------------------------------------------------------------------------------------

  /** The departing pack owned the selection of this content. */
  predicate OwnedBy(members: seq<Member>, gone: Option<Id>, id: Id)
  {
    exists g :: g in members && Some(g.pack) == gone && g.content == id && g.ownsSelection
  }

  predicate ListedBesides(members: seq<Member>, gone: Option<Id>, id: Id)
  {
    exists o :: o in members && Some(o.pack) != gone && o.content == id
  }

  /** Of the packs left that list this content, the first by identifier inherits a selection nobody else keeps. */
  predicate Inherits(members: seq<Member>, gone: Option<Id>, retained: set<Id>, k: Member)
  {
    && OwnedBy(members, gone, k.content) && k.content !in retained
    && forall o :: o in members && Some(o.pack) != gone && o.content == k.content ==> AtMost(k.pack, o.pack)
  }

  /** The membership `m` is this one of another pack, as the departure leaves it. */
  predicate LeftAs(members: seq<Member>, gone: Option<Id>, retained: set<Id>, k: Member, m: Member)
  {
    && k in members && Some(k.pack) != gone
    && m == Member(k.pack, k.content, k.version, k.enabledByDefault,
                   k.ownsSelection || Inherits(members, gone, retained, k))
  }

  lemma FirstIsLeast(members: seq<Member>, i: nat)
    requires StrictlyOrdered(members) && i < |members|
    ensures FirstOfItsContent(members, i)
       <==> forall o :: o in members && o.content == members[i].content ==> AtMost(members[i].pack, o.pack)
  {
    if FirstOfItsContent(members, i) {
      forall o | o in members && o.content == members[i].content
        ensures AtMost(members[i].pack, o.pack)
      {
        var j :| 0 <= j < |members| && members[j] == o;
        AtMostReflexive(o.pack);
      }
    } else {
      var j :| 0 <= j < i && members[j].content == members[i].content;
      EarlierIsLess(members, j, i);
    }
  }

  lemma EarlierIsLess(members: seq<Member>, j: nat, i: nat)
    requires StrictlyOrdered(members) && j < i < |members| && members[j].content == members[i].content
    ensures members[j] in members && !AtMost(members[i].pack, members[j].pack)
  {
    if AtMost(members[i].pack, members[j].pack) {
      AtMostAntisymmetric(members[i].pack, members[j].pack);
    }
  }

  /** Position by position, what becomes of the memberships that stay. */
  lemma HeirAt(members: seq<Member>, gone: Option<Id>, retained: set<Id>, i: nat)
    requires StrictlyOrdered(members) && i < |Keep(members, gone)|
    ensures LeftAs(members, gone, retained, Keep(members, gone)[i],
                   Heirs(Keep(members, gone), Orphans(members, gone, retained))[i])
  {
    var kept := Keep(members, gone);
    KeepStrictlyOrdered(members, gone);
    FirstIsLeast(kept, i);
    assert kept[i] in kept;
    assert kept[i].content in Orphans(members, gone, retained)
      <==> OwnedBy(members, gone, kept[i].content) && kept[i].content !in retained;
  }

  /** Exactly the memberships of other packs stay, each an owner if it was one or inherits. */
  lemma MembersLeft(members: seq<Member>, gone: Option<Id>, retained: set<Id>, m: Member)
    requires StrictlyOrdered(members)
    ensures m in Heirs(Keep(members, gone), Orphans(members, gone, retained))
       <==> exists k :: LeftAs(members, gone, retained, k, m)
  {
    var kept, heirs := Keep(members, gone), Heirs(Keep(members, gone), Orphans(members, gone, retained));
    if m in heirs {
      var i :| 0 <= i < |heirs| && heirs[i] == m;
      HeirAt(members, gone, retained, i);
    }
    if k :| LeftAs(members, gone, retained, k, m) {
      assert k in kept;
      var i :| 0 <= i < |kept| && kept[i] == k;
      HeirAt(members, gone, retained, i);
      assert heirs[i] == m;
    }
  }

  /** With the pack go its own selection and those it owned that nobody else lists. */
  lemma SelectionsGone(members: seq<Member>, gone: Option<Id>, retained: set<Id>, id: Id)
    ensures id in Removals(members, gone, retained)
       <==> Some(id) == gone || (OwnedBy(members, gone, id) && id !in retained && !ListedBesides(members, gone, id))
  {
    var kept := Keep(members, gone);
    assert id in Contents(kept) <==> ListedBesides(members, gone, id) by {
      if o :| o in members && Some(o.pack) != gone && o.content == id {
        assert o in kept;
      }
    }
    assert id in Orphans(members, gone, retained) <==> OwnedBy(members, gone, id) && id !in retained;
  }

  // ----- Reconciled selections ----------------------------------------------------------------------------

  predicate ListedIn(members: seq<Member>, id: Id)
  {
    exists m :: m in members && m.content == id
  }

  predicate OwnedIn(members: seq<Member>, id: Id)
  {
    exists m :: m in members && m.content == id && m.ownsSelection
  }

  /** A pack that is switched on wants this content on. */
  predicate WantedOn(requested: map<Id, Selection>, members: seq<Member>, id: Id)
  {
    exists m :: m in members && m.content == id && m.enabledByDefault && m.pack in requested && requested[m.pack].enabled
  }

  /** `after` is what reconciling makes of `before`, selection by selection. */
  predicate ReconciledTo(before: map<Id, Selection>, members: seq<Member>, after: map<Id, Selection>)
  {
    && after.Keys == before.Keys
    && (forall id :: id in before && !ListedIn(members, id) ==> after[id] == before[id])
    && (forall m :: m in members && m.content in before ==> after[m.content].version == Exact(m.version))
    && (forall id :: id in before && ListedIn(members, id) ==>
         (after[id].enabled <==>
            (before[id].enabled && !OwnedIn(members, id)) || WantedOn(before, members, id)))
  }

  lemma WantedIsDemanded(requested: map<Id, Selection>, members: seq<Member>, id: Id)
    ensures WantedOn(requested, members, id) <==> Demanded(requested, members, id)
  {
    if m :| m in members && m.content == id && Demands(requested, m) {
      assert m.enabledByDefault && m.pack in requested && requested[m.pack].enabled;
    }
    if m :| m in members && m.content == id && m.enabledByDefault && m.pack in requested && requested[m.pack].enabled {
      assert Demands(requested, m);
    }
  }

  lemma ReconcilingMeans(before: map<Id, Selection>, members: seq<Member>)
    requires forall m, n :: m in members && n in members && m.content == n.content ==> m.version == n.version
    ensures ReconciledTo(before, members, Reconciled(before, members))
  {
    var after := Reconciled(before, members);
    forall id | id in before && ListedIn(members, id)
      ensures after[id].enabled <==> (before[id].enabled && !OwnedIn(members, id)) || WantedOn(before, members, id)
    {
      WantedIsDemanded(before, members, id);
    }
    forall m | m in members && m.content in before
      ensures after[m.content].version == Exact(m.version)
    {
      VersionOfBound(members, m);
    }
  }

  // ----- Installing ---------------------------------------------------------------------------------------------

  /** The new membership of one of the files a pack lists. */
  predicate BroughtAs(pre: Lock, pack: PackInput, previous: Option<Id>, m: Member)
  {
    && m.content in pack.files
    && m == Member(pack.id, m.content, pack.files[m.content].version, pack.files[m.content].enabled,
                   OwnedBy(pre.members, previous, m.content) || m.content !in pre.requested)
  }

  lemma FileIsRequestedStill(s: State, pack: PackInput, previous: Option<Id>, id: Id)
    requires Inv(s) && WellFormedPack(pack) && IsPreviousPack(s.lock.items, Some(pack.source), previous)
    requires ConsistentCatalog(Catalog(s.lock.items, PackReleases(pack))) && id in pack.files
    ensures id in StillRequested(s.lock, previous, MemberSpecs(pack)) <==> id in s.lock.requested
    ensures id !in s.lock.requested ==> !Owned(Remaining(s.lock, previous, MemberSpecs(pack)), id)
  {
    FileIsNoPack(s.lock, pack, id);
    SelectionsGone(s.lock.members, previous, MemberSpecs(pack).Keys, id);
    if Owned(Remaining(s.lock, previous, MemberSpecs(pack)), id) {
      var m :| m in Remaining(s.lock, previous, MemberSpecs(pack)) && m.content == id && m.ownsSelection;
      var k := RemainingOf(s, pack, previous, m);
    }
  }

  lemma NewMemberMeans(s: State, pack: PackInput, previous: Option<Id>, m: Member)
    requires Inv(s) && WellFormedPack(pack) && IsPreviousPack(s.lock.items, Some(pack.source), previous)
    requires ConsistentCatalog(Catalog(s.lock.items, PackReleases(pack)))
    ensures m in NewMembers(s.lock, pack.id, previous, MemberSpecs(pack)) <==> BroughtAs(s.lock, pack, previous, m)
  {
    var specs := MemberSpecs(pack);
    if m.content in pack.files {
      FileIsRequestedStill(s, pack, previous, m.content);
      assert m.content in CarriedIds(s.lock, previous) <==> OwnedBy(s.lock.members, previous, m.content);
      assert m.content in specs;
      assert NewMember(s.lock, pack.id, previous, specs, m.content) in NewMembers(s.lock, pack.id, previous, specs);
    }
  }

  /**
   * After an installation there are exactly the memberships of the packs that stay, with whoever
   * inherits, and one for each file of the new pack; it owns the file's selection if the replaced
   * pack did, or if nobody had asked for the file.
   */
  lemma MembersInstalled(s: State, pack: PackInput, previous: Option<Id>, post: Lock, m: Member)
    requires Inv(s) && WellFormedPack(pack) && PackInstalled(s.lock, pack, previous, post)
    ensures m in post.members
       <==> (exists k :: LeftAs(s.lock.members, previous, pack.files.Keys, k, m)) || BroughtAs(s.lock, pack, previous, m)
  {
    assert MemberSpecs(pack).Keys == pack.files.Keys;
    TransitionElements(s.lock, pack, previous, post.members);
    MembersLeft(s.lock.members, previous, pack.files.Keys, m);
    NewMemberMeans(s, pack, previous, m);
  }

  /** Of the replaced pack nothing is left but what the new one lists under its identifier. */
  lemma ReplacedPackGone(s: State, pack: PackInput, previous: Option<Id>, post: Lock, m: Member)
    requires Inv(s) && WellFormedPack(pack) && PackInstalled(s.lock, pack, previous, post)
    requires m in post.members && Some(m.pack) == previous
    ensures m.pack == pack.id && m.content in pack.files && m.version == pack.files[m.content].version
  {
    MembersInstalled(s, pack, previous, post, m);
  }

  /** The selection a content has before the memberships have their say. */
  ghost predicate MergedTo(pre: Lock, pack: PackInput, previous: Option<Id>, merged: map<Id, Selection>)
  {
    && (forall id :: id in merged <==>
         || id == pack.id || id in pack.files
         || (id in pre.requested && Some(id) != previous
             && (OwnedBy(pre.members, previous, id) ==> ListedBesides(pre.members, previous, id))))
    && (pack.id in merged && merged[pack.id] == Selection(Exact(pack.version), true))
    && (forall id :: id in pack.files && id in merged ==>
         merged[id] == Selection(Exact(pack.files[id].version),
                                 if id in pre.requested then pre.requested[id].enabled else pack.files[id].enabled))
    && (forall id :: id in merged && id != pack.id && id !in pack.files ==> id in pre.requested && merged[id] == pre.requested[id])
  }

  lemma MergingMeans(s: State, pack: PackInput, previous: Option<Id>)
    requires Inv(s) && WellFormedPack(pack) && IsPreviousPack(s.lock.items, Some(pack.source), previous)
    requires ConsistentCatalog(Catalog(s.lock.items, PackReleases(pack)))
    ensures MergedTo(s.lock, pack, previous, MergedAfter(s.lock, pack, previous))
  {
    var merged, specs := MergedAfter(s.lock, pack, previous), MemberSpecs(pack);
    assert specs.Keys == pack.files.Keys;
    if pack.id in pack.files {
      FileIsNoPack(s.lock, pack, pack.id);
    }
    forall id
      ensures id in merged <==>
              || id == pack.id || id in pack.files
              || (id in s.lock.requested && Some(id) != previous
                  && (OwnedBy(s.lock.members, previous, id) ==> ListedBesides(s.lock.members, previous, id)))
    {
      SelectionsGone(s.lock.members, previous, specs.Keys, id);
    }
    forall id | id in pack.files && id in merged
      ensures merged[id] == Selection(Exact(pack.files[id].version),
                                      if id in s.lock.requested then s.lock.requested[id].enabled else pack.files[id].enabled)
    {
      FileIsRequestedStill(s, pack, previous, id);
    }
  }

  /** The selections after an installation: merged as described, then reconciled as described. */
  lemma SelectionsInstalled(s: State, pack: PackInput, previous: Option<Id>, post: Lock)
    requires Inv(s) && WellFormedPack(pack) && PackInstalled(s.lock, pack, previous, post)
    ensures exists merged :: MergedTo(s.lock, pack, previous, merged) && ReconciledTo(merged, post.members, post.requested)
  {
    MergingMeans(s, pack, previous);
    OneVersion(s, pack, previous, post.members);
    ReconcilingMeans(MergedAfter(s.lock, pack, previous), post.members);
  }

  lemma OneVersion(s: State, pack: PackInput, previous: Option<Id>, members: seq<Member>)
    requires Inv(s) && TransitionedTo(s.lock, pack, previous, members)
    ensures forall m, n :: m in members && n in members && m.content == n.content ==> m.version == n.version
  {
    TransitionReconciles(s, pack, previous, members);
  }

  /** Why an installation may be refused before anything is downloaded. */
  lemma InstallAllowed(s: State, pack: PackInput, previous: Option<Id>)
    requires Inv(s) && WellFormedPack(pack) && IsPreviousPack(s.lock.items, Some(pack.source), previous)
    ensures (forall id :: id in pack.files ==>
              NoClash(MemberSpecs(pack), s.lock.items, CarriedIds(s.lock, previous),
                      Remaining(s.lock, previous, MemberSpecs(pack)), id))
       <==> && (forall k :: k in s.lock.members && Some(k.pack) != previous && k.content in pack.files ==>
                  k.version == pack.files[k.content].version)
            && (forall id :: id in pack.files && id in s.lock.items
                             && s.lock.items[id].version != pack.files[id].version ==>
                  OwnedBy(s.lock.members, previous, id))
  {
    forall id | id in pack.files
      ensures NoClash(MemberSpecs(pack), s.lock.items, CarriedIds(s.lock, previous),
                      Remaining(s.lock, previous, MemberSpecs(pack)), id)
         <==> && (forall k :: k in s.lock.members && Some(k.pack) != previous && k.content == id ==>
                    k.version == pack.files[id].version)
              && (id in s.lock.items && s.lock.items[id].version != pack.files[id].version ==>
                    OwnedBy(s.lock.members, previous, id))
    {
      ClashMeans(s, pack, previous, id, pack.files[id].version);
    }
  }

  /** A clash is another pack's membership at another version, or an installed item that is not the replaced pack's. */
  lemma ClashMeans(s: State, pack: PackInput, previous: Option<Id>, id: Id, version: Version)
    requires Inv(s)
    ensures VersionClash(Remaining(s.lock, previous, MemberSpecs(pack)), id, version)
       <==> exists k :: k in s.lock.members && Some(k.pack) != previous && k.content == id && k.version != version
    ensures SelectionClash(s.lock.items, CarriedIds(s.lock, previous), id, version)
       <==> id in s.lock.items && s.lock.items[id].version != version && !OwnedBy(s.lock.members, previous, id)
  {
    var remaining := Remaining(s.lock, previous, MemberSpecs(pack));
    if m :| m in remaining && m.content == id && m.version != version {
      var k := RemainingOf(s, pack, previous, m);
    }
    if k :| k in s.lock.members && Some(k.pack) != previous && k.content == id && k.version != version {
      StaysSomehow(s.lock.members, previous, MemberSpecs(pack).Keys, k);
    }
    assert id in CarriedIds(s.lock, previous) <==> OwnedBy(s.lock.members, previous, id);
  }

  /** Which conflict an import may report, and what it then found. */
  lemma RefusalMeans(s: State, pack: PackInput, previous: Option<Id>, e: MembershipError)
    requires Inv(s) && Refusal(s.lock, pack.id, previous, MemberSpecs(pack), e)
    ensures e.MemberVersionConflict? ==>
              exists k :: k in s.lock.members && Some(k.pack) != previous && k.content in pack.files
                          && k.version != pack.files[k.content].version
    ensures e.PackSelectionConflict? ==>
              exists id :: id in pack.files && id in s.lock.items && s.lock.items[id].version != pack.files[id].version
                           && !OwnedBy(s.lock.members, previous, id)
    ensures e.MemberCountInvalid? ==> |Keep(s.lock.members, previous)| + |pack.files| > 4096
    ensures e.SelectionCountInvalid? ==> |MergedAfter(s.lock, pack, previous)| > 4096
  {
    assert MemberSpecs(pack).Keys == pack.files.Keys;
    assert |MemberSpecs(pack)| == |pack.files|;
    MergedKeys(s.lock.requested, TransitionRemovals(s.lock, previous, MemberSpecs(pack)), pack);
    assert |MergedAfter(s.lock, pack, previous)| == |MergedAfter(s.lock, pack, previous).Keys|;
    if e.MemberVersionConflict? {
      var id :| id in pack.files && VersionClash(Remaining(s.lock, previous, MemberSpecs(pack)), id, pack.files[id].version);
      ClashMeans(s, pack, previous, id, pack.files[id].version);
    } else if e.PackSelectionConflict? {
      var id :| id in pack.files && SelectionClash(s.lock.items, CarriedIds(s.lock, previous), id, pack.files[id].version);
      ClashMeans(s, pack, previous, id, pack.files[id].version);
    }
  }

  lemma StaysSomehow(members: seq<Member>, gone: Option<Id>, retained: set<Id>, k: Member)
    requires StrictlyOrdered(members) && k in members && Some(k.pack) != gone
    ensures exists m :: m in Heirs(Keep(members, gone), Orphans(members, gone, retained))
                        && m.content == k.content && m.version == k.version
  {
    var m := Member(k.pack, k.content, k.version, k.enabledByDefault, k.ownsSelection || Inherits(members, gone, retained, k));
    assert LeftAs(members, gone, retained, k, m);
    MembersLeft(members, gone, retained, m);
  }

  /** No lock grows beyond its bounds. */
  lemma InstalledBounds(pre: Lock, pack: PackInput, previous: Option<Id>, post: Lock)
    requires PackInstalled(pre, pack, previous, post)
    ensures |post.members| <= 4096 && |post.requested| <= 4096
  {
    MergedKeysAreCounted(pre, pack, previous, post.members);
    var remaining, added := Remaining(pre, previous, MemberSpecs(pack)), NewMembers(pre, pack.id, previous, MemberSpecs(pack));
    FewNewMembers(pre, pack, previous);
    assert |multiset(post.members)| == |multiset(remaining)| + |multiset(added)|;
  }

  lemma FewNewMembers(pre: Lock, pack: PackInput, previous: Option<Id>)
    ensures |NewMembers(pre, pack.id, previous, MemberSpecs(pack))| <= |MemberSpecs(pack)|
  {
    var specs := MemberSpecs(pack);
    FewJoined(pack.id, specs, CarriedIds(pre, previous), StillRequested(pre, previous, specs), Remaining(pre, previous, specs),
              {});
    assert specs.Keys - {} == specs.Keys;
  }

  lemma {:induction false} FewJoined(pack: Id, specs: map<Id, MemberSpec>, carried: set<Id>, requested: set<Id>,
                                     remaining: seq<Member>, todo: set<Id>)
    ensures |JoinedSoFar(pack, specs, carried, requested, remaining, todo)| <= |specs.Keys - todo|
    decreases |specs.Keys - todo|
  {
    if specs.Keys - todo != {} {
      var id :| id in specs.Keys - todo;
      var rest := todo + {id};
      assert specs.Keys - todo == (specs.Keys - rest) + {id};
      FewJoined(pack, specs, carried, requested, remaining, rest);
      assert JoinedSoFar(pack, specs, carried, requested, remaining, todo)
          == JoinedSoFar(pack, specs, carried, requested, remaining, rest)
             + {Joining(pack, id, specs[id], carried, requested, remaining)};
    } else {
      NothingToJoin(specs.Keys, todo);
      assert JoinedSoFar(pack, specs, carried, requested, remaining, todo) == {};
    }
  }

  lemma NothingToJoin(all: set<Id>, todo: set<Id>)
    requires all - todo == {}
    ensures forall id :: id in all ==> id in todo
  {
    forall id | id in all
      ensures id in todo
    {
      assert id !in all - todo;
    }
  }

  // ----- Guards ---------------------------------------------------------------------------------------------------

  /** An enabled item other than this one has a required dependency that was resolved to it. */
  ghost predicate Needed(items: map<Id, Item>, id: Id)
  {
    exists other, d :: other in items && other != id && items[other].enabled
                       && d in items[other].dependencies && d == Dependency(id, Required, true)
  }

  lemma NeededMeans(items: map<Id, Item>, id: Id)
    ensures RequiredByEnabledItem(items, id) <==> Needed(items, id)
  {
    if other :| other in items && items[other].enabled && other != id && RequiresItem(items[other], id) {
      var d :| d in items[other].dependencies && d.content == id && d.kind == Required && d.resolved;
      assert d == Dependency(id, Required, true);
    }
    if other, d :| other in items && other != id && items[other].enabled
                   && d in items[other].dependencies && d == Dependency(id, Required, true) {
      assert RequiresItem(items[other], id);
    }
  }

  /** What may be switched: everything on; off only what no enabled item needs and no enabled pack wants on. */
  lemma SwitchAllowed(pre: Lock, id: Id, enabled: bool)
    ensures ToggleAllowed(pre, id, enabled)
       <==> && id in pre.items
            && (enabled || (!Needed(pre.items, id)
                            && (pre.items[id].kind == Modpack || !WantedOn(pre.requested, pre.members, id))))
  {
    NeededMeans(pre.items, id);
    WantedIsDemanded(pre.requested, pre.members, id);
  }

  /** What may be removed: a pack, or a content no pack lists, if no enabled item needs it. */
  lemma RemovalPermitted(pre: Lock, id: Id)
    ensures RemovalAllowed(pre, id)
       <==> && id in pre.items && !Needed(pre.items, id)
            && (pre.items[id].kind == Modpack || !ListedIn(pre.members, id))
  {
    NeededMeans(pre.items, id);
  }

  // ----- Removing -------------------------------------------------------------------------------------------------

  /** A removed pack leaves the other packs' memberships, with whoever inherits; another removal leaves all. */
  lemma MembersRemoved(s: State, id: Id, post: Lock, m: Member)
    requires Inv(s) && Removed(s.lock, id, post)
    ensures m in post.members
       <==> if s.lock.items[id].kind == Modpack then exists k :: LeftAs(s.lock.members, Some(id), {}, k, m)
            else m in s.lock.members
  {
    MembersLeft(s.lock.members, Some(id), {}, m);
  }

  /** The selections that are left before reconciling. */
  predicate TakenOut(pre: Lock, id: Id, base: map<Id, Selection>)
    requires id in pre.items
  {
    && base.Keys <= pre.requested.Keys
    && (forall key :: key in pre.requested ==>
         (key in base <==>
            key != id
            && (pre.items[id].kind == Modpack && OwnedBy(pre.members, Some(id), key) ==>
                  ListedBesides(pre.members, Some(id), key))))
    && (forall key :: key in base ==> base[key] == pre.requested[key])
  }

  lemma SelectionsRemoved(s: State, id: Id, post: Lock)
    requires Inv(s) && Removed(s.lock, id, post)
    ensures exists base :: TakenOut(s.lock, id, base) && ReconciledTo(base, post.members, post.requested)
    ensures post.requested == map[] ==> post.items == map[]
  {
    var base := Without(s.lock.requested, RemovalTargets(s.lock, id));
    forall key | key in s.lock.requested
      ensures key in base <==>
              key != id
              && (s.lock.items[id].kind == Modpack && OwnedBy(s.lock.members, Some(id), key) ==>
                    ListedBesides(s.lock.members, Some(id), key))
    {
      SelectionsGone(s.lock.members, Some(id), {}, key);
    }
    RemovalReconciles(s, id);
    ReconcilingMeans(base, post.members);
    assert TakenOut(s.lock, id, base);
  }

  // ----- Switching ------------------------------------------------------------------------------------------------

  /** A direct switch of a content takes its selection from every pack and changes no other membership. */
  lemma MembersSwitched(pre: Lock, id: Id, enabled: bool, post: Lock, i: nat)
    requires Toggled(pre, id, enabled, post) && i < |pre.members|
    ensures |post.members| == |pre.members|
    ensures var m := pre.members[i];
            post.members[i] == Member(m.pack, m.content, m.version, m.enabledByDefault,
                                      m.ownsSelection && (m.content != id || pre.items[id].kind == Modpack))
  {
    if pre.members[i].content == id {
      assert pre.members[i] in pre.members;
    }
  }

  /** The switch is set, at the version selected or installed, and the rest is reconciled with it. */
  predicate SetTo(pre: Lock, id: Id, enabled: bool, base: map<Id, Selection>)
    requires id in pre.items
  {
    && base.Keys == pre.requested.Keys + {id}
    && base[id] == Selection(if id in pre.requested then pre.requested[id].version else Exact(pre.items[id].version), enabled)
    && forall key :: key in pre.requested && key != id ==> base[key] == pre.requested[key]
  }

  lemma SelectionsSwitched(s: State, id: Id, enabled: bool, post: Lock)
    requires Inv(s) && Toggled(s.lock, id, enabled, post)
    ensures exists base :: SetTo(s.lock, id, enabled, base) && ReconciledTo(base, post.members, post.requested)
  {
    SwitchedOnce(s, id, enabled);
    ReconcilingMeans(Switched(s.lock, id, enabled), post.members);
    SwitchedIsSet(s.lock, id, enabled);
  }

  lemma SwitchedIsSet(pre: Lock, id: Id, enabled: bool)
    requires id in pre.items
    ensures SetTo(pre, id, enabled, Switched(pre, id, enabled))
  {
  }

  lemma SwitchedOnce(s: State, id: Id, enabled: bool)
    requires Inv(s) && id in s.lock.items
    ensures forall m, n :: m in ClaimedMembers(s.lock, id) && n in ClaimedMembers(s.lock, id) && m.content == n.content ==>
              m.version == n.version
  {
    ToggleReconciles(s, id, enabled);
  }

  // ----- Installing one content ---------------------------------------------------------------------------------------

  /** A content is selected at its version and on; it is listed by no pack, and its Modrinth version was not there. */
  lemma ContentAdded(s: State, id: Id, version: Version, kind: Kind, source: Source, extra: set<Release>, post: Lock)
    requires Inv(s) && ContentInstalled(s.lock, id, version, kind, source, extra, post)
    ensures kind != Modpack && !ListedIn(s.lock.members, id)
    ensures source.Modrinth? ==>
              source.project == id && source.release == version
              && forall other :: other in s.lock.items && s.lock.items[other].source.Some?
                                 && s.lock.items[other].source.value.Modrinth? ==>
                   s.lock.items[other].source.value.release != version
    ensures post.members == s.lock.members
    ensures forall key :: key in post.requested <==> key in s.lock.requested || key == id
    ensures forall key :: key in s.lock.requested && key != id ==> post.requested[key] == s.lock.requested[key]
    ensures post.requested[id] == Selection(Exact(version), true)
  {
    InstalledIsNoMember(s, id, version, kind, source, extra, post);
  }

  // ----- The items ------------------------------------------------------------------------------------------------------

  lemma RequirementMeans(requirement: Requirement, version: Version)
    ensures Matches(requirement, version)
       <==> match requirement
            case Any => true
            case Exact(v) => version == v
            case OneOf(vs) => exists i :: 0 <= i < |vs| && vs[i] == version
  {
  }

  /** Releases an operation makes available. */
  predicate Brings(op: Operation, id: Id, item: Item)
  {
    match op
    case InstallPack(pack, _) =>
      || (id == pack.id && item.version == pack.version && item.kind == Modpack && item.source == Some(pack.source))
      || (id in pack.files && item.version == pack.files[id].version && item.kind == pack.files[id].kind
          && item.source == Some(Modrinth(id, item.version)))
    case InstallContent(other, version, kind, source, extra) =>
      || (id == other && item.version == version && item.kind == kind && item.source == Some(source))
      || Release(id, item.version, item.kind, item.source) in extra
    case _ => false
  }

  predicate SameRelease(a: Item, b: Item)
  {
    a.version == b.version && a.kind == b.kind && a.source == b.source
  }

  /** The releases that come with an operation. */
  function AddedBy(op: Operation): set<Release>
  {
    match op
    case InstallPack(pack, _) => PackReleases(pack)
    case InstallContent(id, version, kind, source, extra) => extra + {Release(id, version, kind, Some(source))}
    case _ => {}
  }

  lemma AddedIsBrought(op: Operation, id: Id, item: Item)
    requires Release(id, item.version, item.kind, item.source) in AddedBy(op)
    ensures Brings(op, id, item)
  {
  }

  lemma StepResolves(s: State, op: Operation, t: State)
    requires Step(s, op, t)
    ensures t.lock.items == map[] || Resolution(Catalog(s.lock.items, AddedBy(op)), t.lock.requested, t.lock.items)
  {
  }

  /** Every item is one that was there or one the operation brought, and keeps the kind its identifier had. */
  lemma ItemsAfter(s: State, op: Operation, t: State, id: Id)
    requires Step(s, op, t) && id in t.lock.items
    ensures (id in s.lock.items && SameRelease(t.lock.items[id], s.lock.items[id])) || Brings(op, id, t.lock.items[id])
    ensures id in s.lock.items ==> t.lock.items[id].kind == s.lock.items[id].kind
  {
    StepResolves(s, op, t);
    ItemFrom(s.lock.items, AddedBy(op), t.lock.requested, t.lock.items, id);
    if Release(id, t.lock.items[id].version, t.lock.items[id].kind, t.lock.items[id].source) in AddedBy(op) {
      AddedIsBrought(op, id, t.lock.items[id]);
    }
  }

  lemma ItemFrom(before: map<Id, Item>, added: set<Release>, requested: map<Id, Selection>, items: map<Id, Item>, id: Id)
    requires Resolution(Catalog(before, added), requested, items) && id in items
    ensures (id in before && SameRelease(items[id], before[id]))
            || Release(id, items[id].version, items[id].kind, items[id].source) in added
    ensures id in before ==> items[id].kind == before[id].kind
  {
    if id in before {
      assert ReleaseOf(id, before[id]) in Catalog(before, added);
    }
  }

  /** Every selection has an item of a version it admits, and on if it is on. */
  lemma SelectionsServed(s: State, op: Operation, t: State, id: Id)
    requires Step(s, op, t) && id in t.lock.requested
    ensures id in t.lock.items && (t.lock.requested[id].enabled ==> t.lock.items[id].enabled)
    ensures t.lock.requested[id].version.Exact? ==> t.lock.items[id].version == t.lock.requested[id].version.version
    ensures t.lock.requested[id].version.OneOf? ==> t.lock.items[id].version in t.lock.requested[id].version.versions
  {
    StepValidates(s, op, t);
  }

  /** Every membership has its pack and its content, at its version; what an enabled pack wants on is on. */
  lemma MembershipsServed(s: State, op: Operation, t: State, m: Member)
    requires Inv(s) && Step(s, op, t) && m in t.lock.members
    ensures m.pack in t.lock.items && t.lock.items[m.pack].kind == Modpack
    ensures m.content in t.lock.items && t.lock.items[m.content].version == m.version
    ensures t.lock.items[m.pack].enabled && m.enabledByDefault ==> t.lock.items[m.content].enabled
  {
    StepKeepsInv(s, op, t);
    assert Bound(t.lock, m);
    StepValidates(s, op, t);
  }

  lemma StepValidates(s: State, op: Operation, t: State)
    requires Step(s, op, t)
    ensures t.lock.requested == map[] || ValidMembers(t.lock)
    ensures t.lock.requested == map[]
            || Resolution(Catalog(s.lock.items, AddedBy(op)), t.lock.requested, t.lock.items)
  {
  }
}
