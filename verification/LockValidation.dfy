/**
 * Why a planned lock may fail its validation: the operations leave only one thing that can be
 * wrong, content a pack wants on and the resolver left off.
 */
module LockValidation {
  import opened Wrappers
  import opened Ordering
  import opened ContentModel
  import opened PackMembership
  import opened PackOperations
  import opened PackOwnership
  import opened PackInstallation
  import opened PackLifecycle

  /** An enabled pack item wants this content on, and the content's item is off. */
  predicate Unserved(members: seq<Member>, items: map<Id, Item>)
  {
    exists m :: m in members && m.enabledByDefault && m.pack in items && items[m.pack].enabled
                && m.content in items && !items[m.content].enabled
  }

  predicate AllMatch(requested: map<Id, Selection>, items: map<Id, Item>)
  {
    forall id :: id in requested ==> id in items && Matches(requested[id].version, items[id].version)
  }

  /** For bound memberships in order with single owners, nothing else is left to be checked. */
  lemma ValidExactly(lock: Lock)
    requires StrictlyOrdered(lock.members) && AtMostOneOwner(lock.members)
    requires AllBound(lock) && AllMatch(lock.requested, lock.items)
    ensures ValidMembers(lock) <==> !Unserved(lock.members, lock.items)
  {
    forall m | m in lock.members
      ensures m.pack != m.content && Matches(lock.requested[m.pack].version, lock.items[m.pack].version)
      ensures Matches(lock.requested[m.content].version, m.version)
      ensures m.pack in lock.items && m.content in lock.items && lock.items[m.content].version == m.version
    {
      assert Bound(lock, m);
    }
  }

  // ----- Memberships carried over --------------------------------------------------------------------------

  /** Memberships whose pack is still a modpack item and whose content is still an item. */
  function Preserved(members: seq<Member>, items: map<Id, Item>): (r: seq<Member>)
    ensures (forall m :: m in members ==> StillBound(m, items)) ==> r == members
    ensures forall m :: m in r <==>
              m in members && m.pack in items && items[m.pack].kind == Modpack && m.content in items
  {
    if members == [] then []
    else if StillBound(members[0], items) then [members[0]] + Preserved(members[1..], items)
    else Preserved(members[1..], items)
  }

  predicate StillBound(m: Member, items: map<Id, Item>)
  {
    m.pack in items && items[m.pack].kind == Modpack && m.content in items
  }

  // ----- Switching ----------------------------------------------------------------------------------------

  /** The lock a switch leads to, from what the resolver made of it. */
  ghost function SwitchedLock(pre: Lock, id: Id, enabled: bool, items: map<Id, Item>): Lock
    requires id in pre.items
  {
    Lock(Reconciled(Switched(pre, id, enabled), ClaimedMembers(pre, id)), items, ClaimedMembers(pre, id))
  }

  lemma SwitchValid(s: State, id: Id, enabled: bool, items: map<Id, Item>)
    requires Inv(s) && id in s.lock.items
    requires Resolution(Catalog(s.lock.items, {}), SwitchedLock(s.lock, id, enabled, items).requested, items)
    ensures ValidMembers(SwitchedLock(s.lock, id, enabled, items)) <==> !Unserved(s.lock.members, items)
    ensures ValidMembers(SwitchedLock(s.lock, id, enabled, items).(members := s.lock.members))
       <==> !Unserved(s.lock.members, items)
  {
    var next := SwitchedLock(s.lock, id, enabled, items);
    SwitchBound(s, id, enabled, items);
    ClaimedOneOwner(s, id);
    ValidExactly(next);
    SameButOwners(next, s.lock.members);
  }

  lemma SwitchBound(s: State, id: Id, enabled: bool, items: map<Id, Item>)
    requires Inv(s) && id in s.lock.items
    requires Resolution(Catalog(s.lock.items, {}), SwitchedLock(s.lock, id, enabled, items).requested, items)
    ensures var next := SwitchedLock(s.lock, id, enabled, items);
            && AllBound(next) && AllMatch(next.requested, items) && |next.members| == |s.lock.members|
            && forall i :: 0 <= i < |next.members| ==> SameUpToOwner(s.lock.members[i], next.members[i])
  {
    var next := SwitchedLock(s.lock, id, enabled, items);
    forall m | m in next.members
      ensures Bound(next, m)
    {
      ToggleBound(s, id, enabled, next, m);
    }
  }

  /** Every membership is still bound to what the resolver made of the switch. */
  lemma SwitchPreserves(s: State, id: Id, enabled: bool, items: map<Id, Item>)
    requires Inv(s) && id in s.lock.items
    requires Resolution(Catalog(s.lock.items, {}), SwitchedLock(s.lock, id, enabled, items).requested, items)
    ensures Preserved(s.lock.members, items) == s.lock.members
  {
    var next := SwitchedLock(s.lock, id, enabled, items);
    SwitchBound(s, id, enabled, items);
    forall m | m in s.lock.members
      ensures StillBound(m, items)
    {
      CounterpartBound(next, s.lock.members, m);
    }
  }

  predicate SameUpToOwner(m: Member, k: Member)
  {
    m.pack == k.pack && m.content == k.content && m.version == k.version && m.enabledByDefault == k.enabledByDefault
  }

  /** Ownership is no matter of the items. */
  lemma SameButOwners(next: Lock, members: seq<Member>)
    requires AllBound(next) && AllMatch(next.requested, next.items)
    requires StrictlyOrdered(members) && AtMostOneOwner(members)
    requires |members| == |next.members| && forall i :: 0 <= i < |members| ==> SameUpToOwner(members[i], next.members[i])
    ensures ValidMembers(next.(members := members)) <==> !Unserved(members, next.items)
    ensures Unserved(members, next.items) <==> Unserved(next.members, next.items)
  {
    var other := next.(members := members);
    forall m | m in members
      ensures Bound(other, m)
    {
      var i :| 0 <= i < |members| && members[i] == m;
      assert next.members[i] in next.members;
      assert Bound(next, next.members[i]);
    }
    ValidExactly(other);
    ServedAlike(members, next.members, next.items);
    ServedAlike(next.members, members, next.items);
  }

  lemma ServedAlike(a: seq<Member>, b: seq<Member>, items: map<Id, Item>)
    requires |a| == |b| && forall i :: 0 <= i < |a| ==> SameUpToOwner(a[i], b[i])
    ensures Unserved(a, items) ==> Unserved(b, items)
  {
    if m :| m in a && m.enabledByDefault && m.pack in items && items[m.pack].enabled
            && m.content in items && !items[m.content].enabled {
      var i :| 0 <= i < |a| && a[i] == m;
      assert b[i] in b;
    }
  }

  // ----- Installing one content ---------------------------------------------------------------------------------

  /** The lock a direct install leads to, from what the resolver made of it. */
  function ContentLock(pre: Lock, id: Id, version: Version, items: map<Id, Item>): Lock
  {
    Lock(pre.requested[id := Selection(Exact(version), true)], items, pre.members)
  }

  /** What the guards of a direct install leave. */
  predicate ContentGuards(pre: Lock, id: Id, version: Version, kind: Kind, source: Source)
  {
    && kind != Modpack
    && (source.Modrinth? ==>
         && source == Modrinth(id, version) && !VersionInstalled(pre.items, version)
         && !exists m :: m in pre.members && m.content == id && m.version != version)
  }

  /** For a direct install the one other reason is that a pack lists the content. */
  lemma ContentValid(s: State, id: Id, version: Version, kind: Kind, source: Source, extra: set<Release>, items: map<Id, Item>)
    requires Inv(s) && ContentGuards(s.lock, id, version, kind, source)
    requires Resolution(Catalog(s.lock.items, extra + {Release(id, version, kind, Some(source))}),
                        ContentLock(s.lock, id, version, items).requested, items)
    ensures ValidMembers(ContentLock(s.lock, id, version, items))
       <==> !Unserved(s.lock.members, items) && !exists m :: m in s.lock.members && m.content == id
  {
    var next := ContentLock(s.lock, id, version, items);
    if m :| m in s.lock.members && m.content == id {
      ListedIsInvalid(s, id, version, kind, source, extra, items, m);
    } else {
      forall m | m in next.members
        ensures Bound(next, m)
      {
        assert Bound(s.lock, m);
        StaysBound(s.lock, extra + {Release(id, version, kind, Some(source))}, next, m, m);
      }
      ValidExactly(next);
    }
  }

  lemma ListedIsInvalid(s: State, id: Id, version: Version, kind: Kind, source: Source, extra: set<Release>,
                        items: map<Id, Item>, m: Member)
    requires Inv(s) && ContentGuards(s.lock, id, version, kind, source) && m in s.lock.members && m.content == id
    requires ConsistentCatalog(Catalog(s.lock.items, extra + {Release(id, version, kind, Some(source))}))
    ensures !ValidMembers(ContentLock(s.lock, id, version, items))
  {
    var catalog := Catalog(s.lock.items, extra + {Release(id, version, kind, Some(source))});
    assert Bound(s.lock, m);
    assert ReleaseOf(id, s.lock.items[id]) in catalog && Release(id, version, kind, Some(source)) in catalog;
  }

  // ----- Installing a pack -----------------------------------------------------------------------------------------

  /** For a pack the one other reason is an installed pack of the same identifier that already lists a file. */
  lemma PackValid(s: State, pack: PackInput, previous: Option<Id>, next: Lock)
    requires Inv(s) && WellFormedPack(pack) && TransitionedTo(s.lock, pack, previous, next.members)
    requires next.requested == Reconciled(MergedAfter(s.lock, pack, previous), next.members)
    requires Resolution(Catalog(s.lock.items, PackReleases(pack)), next.requested, next.items)
    ensures ValidMembers(next) <==> !Unserved(next.members, next.items) && !ListedTwice(s.lock, pack, previous)
  {
    TransitionKeepsOrder(s, pack, previous, next.members);
    TransitionOneOwner(s, pack, previous, next.members);
    forall m | m in next.members
      ensures Bound(next, m)
    {
      InstallBound(s, pack, previous, next, m);
    }
    if StrictlyOrdered(next.members) {
      ValidExactly(next);
    }
  }

  // ----- Removing -----------------------------------------------------------------------------------------------------

  ghost function RemovedLock(pre: Lock, id: Id, items: map<Id, Item>): Lock
    requires id in pre.items
  {
    Lock(Reconciled(Without(pre.requested, RemovalTargets(pre, id)), MembersAfterRemoval(pre, id)), items,
         MembersAfterRemoval(pre, id))
  }

  lemma RemovalValid(s: State, id: Id, items: map<Id, Item>)
    requires Inv(s) && RemovalAllowed(s.lock, id)
    requires Resolution(Catalog(s.lock.items, {}), RemovedLock(s.lock, id, items).requested, items)
    ensures AllBound(RemovedLock(s.lock, id, items))
    ensures ValidMembers(RemovedLock(s.lock, id, items)) <==> !Unserved(MembersAfterRemoval(s.lock, id), items)
  {
    var next := RemovedLock(s.lock, id, items);
    RemovalOneOwner(s, id);
    forall m | m in next.members
      ensures Bound(next, m)
    {
      RemovalBound(s, id, next, m);
    }
    ValidExactly(next);
  }

  /** The memberships that stay, as they were. */
  function StayOf(pre: Lock, id: Id): seq<Member>
    requires id in pre.items
  {
    if pre.items[id].kind == Modpack then Keep(pre.members, Some(id)) else pre.members
  }

  lemma StayServed(pre: Lock, id: Id, items: map<Id, Item>)
    requires id in pre.items && Unserved(StayOf(pre, id), items)
    ensures Unserved(pre.members, items)
  {
  }

  /** The memberships that stay are those kept, position by position and up to ownership. */
  lemma RemovalKeeps(s: State, id: Id)
    requires Inv(s) && RemovalAllowed(s.lock, id)
    ensures var stay := StayOf(s.lock, id);
            var after := MembersAfterRemoval(s.lock, id);
            && |after| == |stay| && StrictlyOrdered(stay) && AtMostOneOwner(stay)
            && forall i :: 0 <= i < |stay| ==> SameUpToOwner(stay[i], after[i])
  {
    KeepStrictlyOrdered(s.lock.members, Some(id));
    KeepOneOwner(s.lock.members, Some(id));
    HeirsAlike(Keep(s.lock.members, Some(id)), Orphans(s.lock.members, Some(id), {}));
  }

  lemma HeirsAlike(members: seq<Member>, orphans: set<Id>)
    ensures |Heirs(members, orphans)| == |members|
    ensures forall i :: 0 <= i < |members| ==> SameUpToOwner(members[i], Heirs(members, orphans)[i])
  {
  }

  /** Without the pack among the items, just its memberships are not carried over. */
  lemma {:induction false} PreservedIsKept(members: seq<Member>, items: map<Id, Item>, gone: Option<Id>)
    requires forall m :: m in members ==> (StillBound(m, items) <==> Some(m.pack) != gone)
    ensures Preserved(members, items) == Keep(members, gone)
  {
    if members != [] {
      PreservedIsKept(members[1..], items, gone);
    }
  }

  /** A removal's lock is invalid only for a content left off, or because the resolver keeps the removed pack. */
  lemma RemovalInvalid(s: State, id: Id, items: map<Id, Item>)
    requires Inv(s) && RemovalAllowed(s.lock, id)
    requires Resolution(Catalog(s.lock.items, {}), RemovedLock(s.lock, id, items).requested, items)
    requires s.lock.items[id].kind == Modpack ==> id !in items
    ensures var requested := RemovedLock(s.lock, id, items).requested;
            ValidMembers(Lock(requested, items, Preserved(s.lock.members, items)))
            <==> ValidMembers(RemovedLock(s.lock, id, items))
    ensures !ValidMembers(RemovedLock(s.lock, id, items)) ==> Unserved(s.lock.members, items)
  {
    var next := RemovedLock(s.lock, id, items);
    RemovalValid(s, id, items);
    RemovalKeeps(s, id);
    SameButOwners(next, StayOf(s.lock, id));
    StaysPreserved(s, id, items);
    if Unserved(StayOf(s.lock, id), items) {
      StayServed(s.lock, id, items);
    }
  }

  lemma CounterpartBound(next: Lock, members: seq<Member>, m: Member)
    requires AllBound(next) && m in members && |members| == |next.members|
    requires forall i :: 0 <= i < |members| ==> SameUpToOwner(members[i], next.members[i])
    ensures StillBound(m, next.items)
  {
    var i :| 0 <= i < |members| && members[i] == m;
    assert next.members[i] in next.members;
    assert Bound(next, next.members[i]);
  }

  lemma StaysPreserved(s: State, id: Id, items: map<Id, Item>)
    requires Inv(s) && RemovalAllowed(s.lock, id) && AllBound(RemovedLock(s.lock, id, items))
    requires s.lock.items[id].kind == Modpack ==> id !in items
    ensures Preserved(s.lock.members, items) == StayOf(s.lock, id)
  {
    RemovalKeeps(s, id);
    if s.lock.items[id].kind == Modpack {
      KeptPreserved(RemovedLock(s.lock, id, items), s.lock.members, id);
    } else {
      AllPreserved(RemovedLock(s.lock, id, items), s.lock.members);
    }
  }

  lemma KeptPreserved(next: Lock, members: seq<Member>, id: Id)
    requires AllBound(next) && id !in next.items && |Keep(members, Some(id))| == |next.members|
    requires forall i :: 0 <= i < |next.members| ==> SameUpToOwner(Keep(members, Some(id))[i], next.members[i])
    ensures Preserved(members, next.items) == Keep(members, Some(id))
  {
    forall m | m in members
      ensures StillBound(m, next.items) <==> Some(m.pack) != Some(id)
    {
      if m.pack != id {
        CounterpartBound(next, Keep(members, Some(id)), m);
      }
    }
    PreservedIsKept(members, next.items, Some(id));
  }

  lemma AllPreserved(next: Lock, members: seq<Member>)
    requires AllBound(next) && |members| == |next.members|
    requires forall i :: 0 <= i < |members| ==> SameUpToOwner(members[i], next.members[i])
    ensures Preserved(members, next.items) == members
  {
    forall m | m in members
      ensures StillBound(m, next.items)
    {
      CounterpartBound(next, members, m);
    }
  }
}
