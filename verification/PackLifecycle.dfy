/** Removing, switching and directly installing content, and whole runs of operations. */
module PackLifecycle {
  import opened Wrappers
  import opened ContentModel
  import opened PackMembership
  import opened PackOperations
  import opened PackOwnership
  import opened PackInstallation

  lemma ReconciledExact(requested: map<Id, Selection>, members: seq<Member>, m: Member)
    requires Reconcilable(requested, members) && m in members
    ensures m.content in requested
    ensures Reconciled(requested, members)[m.content].version == Exact(m.version)
  {
    VersionOfBound(members, m);
  }

  // ----- Removing -----------------------------------------------------------------------------------

  lemma RemovalOf(s: State, id: Id, m: Member) returns (k: Member)
    requires Inv(s) && RemovalAllowed(s.lock, id) && m in MembersAfterRemoval(s.lock, id)
    ensures k in s.lock.members && m == k.(ownsSelection := m.ownsSelection) && Bound(s.lock, k)
    ensures s.lock.items[id].kind == Modpack ==> k.pack != id
    ensures k.content !in RemovalTargets(s.lock, id) && k.pack !in RemovalTargets(s.lock, id)
  {
    if s.lock.items[id].kind == Modpack {
      k := HeirOf(Keep(s.lock.members, Some(id)), Orphans(s.lock.members, Some(id), {}), m);
      PackIsNoContent(s.lock, id);
      KeptStays(s, Some(id), {}, k);
    } else {
      k := m;
      assert Bound(s.lock, k);
    }
  }

  lemma RemovalOneOwner(s: State, id: Id)
    requires Inv(s) && RemovalAllowed(s.lock, id)
    ensures AtMostOneOwner(MembersAfterRemoval(s.lock, id))
    ensures StrictlyOrdered(MembersAfterRemoval(s.lock, id))
  {
    if s.lock.items[id].kind == Modpack {
      var members, gone := s.lock.members, Some(id);
      var kept, orphans := Keep(members, gone), Orphans(members, gone, {});
      KeepOneOwner(members, gone);
      forall o | o in orphans
        ensures !Owned(kept, o)
      {
        OrphansUnowned(members, gone, {}, o);
      }
      HeirsOneOwner(kept, orphans);
      KeepStrictlyOrdered(members, gone);
      HeirsStrictlyOrdered(kept, orphans);
    }
  }

  /** A permitted removal can always be reconciled. */
  lemma RemovalReconciles(s: State, id: Id)
    requires Inv(s) && RemovalAllowed(s.lock, id)
    ensures Reconcilable(Without(s.lock.requested, RemovalTargets(s.lock, id)), MembersAfterRemoval(s.lock, id))
  {
    var members := MembersAfterRemoval(s.lock, id);
    forall m | m in members
      ensures m.content in Without(s.lock.requested, RemovalTargets(s.lock, id))
      ensures m.content in s.lock.items && m.version == s.lock.items[m.content].version
    {
      var k := RemovalOf(s, id, m);
    }
    RemovalOneOwner(s, id);
  }

  lemma RemovalOwnership(s: State, id: Id, content: Id)
    requires Inv(s) && RemovalAllowed(s.lock, id)
    requires content in Contents(MembersAfterRemoval(s.lock, id))
    ensures Owned(MembersAfterRemoval(s.lock, id), content) <==> content !in s.manual - {id}
  {
    if s.lock.items[id].kind == Modpack {
      var members, gone := s.lock.members, Some(id);
      var kept, orphans := Keep(members, gone), Orphans(members, gone, {});
      HeirsContents(kept, orphans);
      HeirsOwned(kept, orphans, content);
      OwnedSplit(members, gone, content);
      PackIsNoContent(s.lock, id);
      assert content in Contents(members);
    }
  }

  lemma RemovalKey(s: State, id: Id, post: Lock, key: Id)
    requires Inv(s) && Removed(s.lock, id, post)
    requires forall other :: other in post.requested ==> other in post.items
    requires forall other :: other in post.items && other in s.lock.items ==>
               post.items[other].kind == s.lock.items[other].kind
    ensures KeyMeans(post, s.manual - {id}, key)
  {
    var targets := RemovalTargets(s.lock, id);
    ReconciledKeys(Without(s.lock.requested, targets), post.members);
    assert key in post.requested <==> key in s.lock.requested && key !in targets;
    if key in s.manual && key != id && s.lock.items[id].kind == Modpack {
      ManualStays(s, Some(id), {}, key);
    }
    if key in Contents(post.members) {
      RemovalReconciles(s, id);
    }
    if key in post.requested && key in Contents(s.lock.members) && s.lock.items[id].kind == Modpack {
      HeirsContents(Keep(s.lock.members, Some(id)), Orphans(s.lock.members, Some(id), {}));
      if key !in Contents(Keep(s.lock.members, Some(id))) {
        LeftoverIsManual(s, Some(id), {}, key);
      }
    }
  }

  lemma RemovalBound(s: State, id: Id, post: Lock, m: Member)
    requires Inv(s) && RemovalAllowed(s.lock, id) && post.members == MembersAfterRemoval(s.lock, id) && m in post.members
    requires post.requested == Reconciled(Without(s.lock.requested, RemovalTargets(s.lock, id)), post.members)
    requires Resolution(Catalog(s.lock.items, {}), post.requested, post.items)
    ensures Bound(post, m)
  {
    var base := Without(s.lock.requested, RemovalTargets(s.lock, id));
    var k := RemovalOf(s, id, m);
    RemovalReconciles(s, id);
    ReconciledKeys(base, post.members);
    ReconciledExact(base, post.members, m);
    StaysBound(s.lock, {}, post, k, m);
  }

  lemma RemovalKinds(pre: Lock, id: Id, post: Lock, other: Id)
    requires Removed(pre, id, post) && other in post.items && other in pre.items
    ensures post.items[other].kind == pre.items[other].kind
  {
    ResolutionKeeps(pre, {}, post, other);
  }

  lemma RemoveKeepsInv(s: State, id: Id, post: Lock)
    requires Inv(s) && Removed(s.lock, id, post)
    ensures Inv(State(post, s.manual - {id}))
  {
    RemovalOneOwner(s, id);
    forall other | other in post.items && other in s.lock.items
      ensures post.items[other].kind == s.lock.items[other].kind
    {
      RemovalKinds(s.lock, id, post, other);
    }
    forall m | m in post.members
      ensures Bound(post, m)
    {
      RemovalBound(s, id, post, m);
    }
    forall content | content in Contents(post.members)
      ensures Owned(post.members, content) <==> content !in s.manual - {id}
    {
      RemovalOwnership(s, id, content);
    }
    forall key
      ensures KeyMeans(post, s.manual - {id}, key)
    {
      RemovalKey(s, id, post, key);
    }
    EveryKeyMeans(post, s.manual - {id});
    BoundPacksApart(post);
    ReconcileIdempotent(Without(s.lock.requested, RemovalTargets(s.lock, id)), post.members);
  }

  // ----- Switching ------------------------------------------------------------------------------------

  lemma DisownedOf(members: seq<Member>, id: Id, m: Member) returns (k: Member)
    requires m in Disowned(members, id)
    ensures k in members && m == k.(ownsSelection := m.ownsSelection)
    ensures m.ownsSelection <==> k.ownsSelection && k.content != id
  {
    var i :| 0 <= i < |members| && Disowned(members, id)[i] == m;
    k := members[i];
  }

  lemma DisownedFacts(members: seq<Member>, id: Id, content: Id)
    ensures Owned(Disowned(members, id), content) <==> Owned(members, content) && content != id
    ensures content in Contents(Disowned(members, id)) <==> content in Contents(members)
  {
    var r := Disowned(members, id);
    if k :| k in members && k.content == content {
      var i :| 0 <= i < |members| && members[i] == k;
      assert r[i] in r && r[i].content == content;
    }
    if m :| m in r && m.content == content {
      var k := DisownedOf(members, id, m);
    }
    if k :| k in members && k.content == content && k.ownsSelection && content != id {
      var i :| 0 <= i < |members| && members[i] == k;
      assert r[i] in r && r[i].ownsSelection;
    }
    if m :| m in r && m.content == content && m.ownsSelection {
      var k := DisownedOf(members, id, m);
    }
  }

  lemma ClaimedOf(s: State, id: Id, m: Member) returns (k: Member)
    requires Inv(s) && id in s.lock.items && m in ClaimedMembers(s.lock, id)
    ensures k in s.lock.members && m == k.(ownsSelection := m.ownsSelection) && Bound(s.lock, k)
  {
    if Claims(s.lock, id) {
      k := DisownedOf(s.lock.members, id, m);
    } else {
      k := m;
    }
  }

  lemma ClaimedOneOwner(s: State, id: Id)
    requires Inv(s) && id in s.lock.items
    ensures AtMostOneOwner(ClaimedMembers(s.lock, id)) && StrictlyOrdered(ClaimedMembers(s.lock, id))
  {
  }

  /** A permitted switch can always be reconciled. */
  lemma ToggleReconciles(s: State, id: Id, enabled: bool)
    requires Inv(s) && id in s.lock.items
    ensures Reconcilable(Switched(s.lock, id, enabled), ClaimedMembers(s.lock, id))
  {
    var members := ClaimedMembers(s.lock, id);
    forall m | m in members
      ensures m.content in Switched(s.lock, id, enabled)
      ensures m.content in s.lock.items && m.version == s.lock.items[m.content].version
    {
      var k := ClaimedOf(s, id, m);
    }
    ClaimedOneOwner(s, id);
  }

  lemma TogglePacks(pre: Lock, id: Id, enabled: bool, post: Lock, key: Id)
    requires id in pre.items && pre.requested.Keys <= pre.items.Keys
    requires post.requested.Keys == pre.requested.Keys + {id}
    requires Resolution(Catalog(pre.items, {}), post.requested, post.items)
    ensures key in PackIds(post) <==> key in PackIds(pre) || (key == id && pre.items[id].kind == Modpack)
  {
    if key in pre.items && key in post.items {
      ResolutionKeeps(pre, {}, post, key);
    }
  }

  lemma ClaimedContents(lock: Lock, id: Id, key: Id)
    requires id in lock.items
    ensures key in Contents(ClaimedMembers(lock, id)) <==> key in Contents(lock.members)
  {
    DisownedFacts(lock.members, id, key);
  }

  lemma ToggleKey(s: State, id: Id, enabled: bool, post: Lock, key: Id)
    requires KeysMeaning(s.lock, s.manual) && s.lock.requested.Keys <= s.lock.items.Keys
    requires id in s.lock.items && post.members == ClaimedMembers(s.lock, id)
    requires post.requested.Keys == Switched(s.lock, id, enabled).Keys
    requires Resolution(Catalog(s.lock.items, {}), post.requested, post.items)
    ensures KeyMeans(post, NextManual(s, SetEnabled(id, enabled)), key)
  {
    ClaimedContents(s.lock, id, key);
    TogglePacks(s.lock, id, enabled, post, key);
    ClaimedKey(s, id, enabled, post, key);
  }

  /** Set algebra: a claimed content becomes manual, a pack stays a pack, and nothing else moves. */
  lemma ClaimedKey(s: State, id: Id, enabled: bool, post: Lock, key: Id)
    requires KeysMeaning(s.lock, s.manual) && id in s.lock.items
    requires post.requested.Keys == s.lock.requested.Keys + {id}
    requires key in Contents(post.members) <==> key in Contents(s.lock.members)
    requires key in PackIds(post) <==> key in PackIds(s.lock) || (key == id && s.lock.items[id].kind == Modpack)
    ensures KeyMeans(post, NextManual(s, SetEnabled(id, enabled)), key)
  {
  }

  lemma ToggleKeepsInv(s: State, id: Id, enabled: bool, post: Lock)
    requires Inv(s) && Toggled(s.lock, id, enabled, post)
    ensures Inv(State(post, NextManual(s, SetEnabled(id, enabled))))
  {
    var manual := NextManual(s, SetEnabled(id, enabled));
    ToggleReconciles(s, id, enabled);
    ClaimedOneOwner(s, id);
    ReconciledKeys(Switched(s.lock, id, enabled), post.members);
    forall m | m in post.members
      ensures Bound(post, m)
    {
      ToggleBound(s, id, enabled, post, m);
    }
    forall content | content in Contents(post.members)
      ensures Owned(post.members, content) <==> content !in manual
    {
      ToggleOwnership(s, id, enabled, content);
    }
    forall key
      ensures KeyMeans(post, manual, key)
    {
      ToggleKey(s, id, enabled, post, key);
    }
    EveryKeyMeans(post, manual);
    BoundPacksApart(post);
    ReconcileIdempotent(Switched(s.lock, id, enabled), post.members);
  }

  lemma ToggleBound(s: State, id: Id, enabled: bool, post: Lock, m: Member)
    requires Inv(s) && id in s.lock.items && post.members == ClaimedMembers(s.lock, id) && m in post.members
    requires post.requested == Reconciled(Switched(s.lock, id, enabled), post.members)
    requires Resolution(Catalog(s.lock.items, {}), post.requested, post.items)
    ensures Bound(post, m)
  {
    var k := ClaimedOf(s, id, m);
    ToggleReconciles(s, id, enabled);
    ReconciledExact(Switched(s.lock, id, enabled), post.members, m);
    StaysBound(s.lock, {}, post, k, m);
  }

  lemma ToggleOwnership(s: State, id: Id, enabled: bool, content: Id)
    requires OwnershipMeaning(s.lock.members, s.manual) && id in s.lock.items
    requires content in Contents(ClaimedMembers(s.lock, id))
    ensures Owned(ClaimedMembers(s.lock, id), content) <==> content !in NextManual(s, SetEnabled(id, enabled))
  {
    DisownedFacts(s.lock.members, id, content);
    ClaimedContents(s.lock, id, content);
  }

  // ----- Installing one content -------------------------------------------------------------------------

  /** The guards and the catalog together refuse a direct install of anything a pack lists. */
  lemma InstalledIsNoMember(s: State, id: Id, version: Version, kind: Kind, source: Source, extra: set<Release>, post: Lock)
    requires Inv(s) && ContentInstalled(s.lock, id, version, kind, source, extra, post)
    ensures id !in Contents(s.lock.members)
    ensures id in s.lock.items ==> s.lock.items[id].kind != Modpack
  {
    var added := extra + {Release(id, version, kind, Some(source))};
    var catalog := Catalog(s.lock.items, added);
    assert Release(id, version, kind, Some(source)) in catalog;
    if id in s.lock.items {
      assert ReleaseOf(id, s.lock.items[id]) in catalog;
    }
    forall m | m in s.lock.members
      ensures m.content != id
    {
      assert Bound(s.lock, m);
    }
  }

  lemma InstallContentKeepsInv(s: State, id: Id, version: Version, kind: Kind, source: Source, extra: set<Release>, post: Lock)
    requires Inv(s) && ContentInstalled(s.lock, id, version, kind, source, extra, post)
    ensures Inv(State(post, s.manual + {id}))
  {
    var added := extra + {Release(id, version, kind, Some(source))};
    var manual := s.manual + {id};
    InstalledIsNoMember(s, id, version, kind, source, extra, post);
    forall m | m in post.members
      ensures Bound(post, m)
    {
      assert Bound(s.lock, m);
      StaysBound(s.lock, added, post, m, m);
    }
    forall key
      ensures KeyMeans(post, manual, key)
    {
      if key in s.lock.items && key in post.items {
        ResolutionKeeps(s.lock, added, post, key);
      }
      if key == id {
        ResolutionUses(s.lock, added, post, Release(id, version, kind, Some(source)));
      }
    }
    EveryKeyMeans(post, manual);
    InstallContentReconciled(s, id, Selection(Exact(version), true));
  }

  /** Adding a selection that is neither a pack nor a member changes nothing reconciled. */
  lemma InstallContentReconciled(s: State, id: Id, selection: Selection)
    requires Inv(s) && id !in Contents(s.lock.members)
    requires id in s.lock.items ==> s.lock.items[id].kind != Modpack
    ensures var requested := s.lock.requested[id := selection];
            requested == Reconciled(requested, s.lock.members)
  {
    var members, requested := s.lock.members, s.lock.requested[id := selection];
    forall m | m in members
      ensures Demands(requested, m) <==> Demands(s.lock.requested, m)
    {
      assert Bound(s.lock, m);
    }
    forall other | other in requested
      ensures ReconciledSelection(requested, members, other) == requested[other]
    {
      if other in Contents(members) {
        assert Demanded(requested, members, other) <==> Demanded(s.lock.requested, members, other);
        assert s.lock.requested[other] == Reconciled(s.lock.requested, members)[other];
      }
    }
  }

  // ----- Runs -----------------------------------------------------------------------------------------------

  /** Every operation keeps the meaning of ownership. */
  lemma StepKeepsInv(s: State, op: Operation, t: State)
    requires Inv(s) && Step(s, op, t)
    ensures Inv(t)
  {
    match op
    case InstallPack(pack, previous) => InstallPackKeepsInv(s, pack, previous, t.lock);
    case InstallContent(id, version, kind, source, extra) =>
      InstallContentKeepsInv(s, id, version, kind, source, extra, t.lock);
    case SetEnabled(id, enabled) => ToggleKeepsInv(s, id, enabled, t.lock);
    case Remove(id) => RemoveKeepsInv(s, id, t.lock);
  }

  /** `states` is a run of `ops`. */
  ghost predicate Run(states: seq<State>, ops: seq<Operation>)
  {
    && |states| == |ops| + 1
    && forall i :: 0 <= i < |ops| ==> Step(states[i], ops[i], states[i + 1])
  }

  lemma {:induction false} RunKeepsInv(states: seq<State>, ops: seq<Operation>)
    requires Run(states, ops) && Inv(states[0])
    ensures forall i :: 0 <= i < |states| ==> Inv(states[i])
  {
    if ops != [] {
      StepKeepsInv(states[0], ops[0], states[1]);
      RunKeepsInv(states[1..], ops[1..]);
      forall i | 0 <= i < |states|
        ensures Inv(states[i])
      {
        if i > 0 {
          assert states[i] == states[1..][i - 1];
        }
      }
    }
  }

  lemma EmptyProfileInv()
    ensures Inv(START)
  {
    assert EMPTY_LOCK.requested == Reconciled(EMPTY_LOCK.requested, EMPTY_LOCK.members);
  }

  /** Selected packs gone, what remains selected is exactly what users asked for. */
  lemma NoPacksLeavesManual(s: State)
    requires Inv(s) && PackIds(s.lock) == {}
    ensures s.lock.requested.Keys == s.manual
    ensures forall m :: m !in s.lock.members
  {
    forall m | m in s.lock.members
      ensures m.pack in PackIds(s.lock)
    {
      assert Bound(s.lock, m);
    }
  }
}
