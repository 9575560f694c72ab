/**
 * What `ownsSelection` means. `manual` is the set of contents a user chose or switched directly;
 * every other selected content is there only because packs list it, and then exactly one
 * membership owns it.
 */
module PackOwnership {
  import opened Wrappers
  import opened ContentModel
  import opened PackMembership
  import opened PackOperations

  datatype State = State(lock: Lock, manual: set<Id>)

  const START := State(EMPTY_LOCK, {})

  function PackIds(lock: Lock): set<Id>
  {
    set id | id in lock.requested && id in lock.items && lock.items[id].kind == Modpack
  }

  /** A membership binds an installed pack to installed content at exactly the listed version. */
  predicate Bound(lock: Lock, m: Member)
  {
    && m.pack in lock.requested && m.pack in lock.items && lock.items[m.pack].kind == Modpack
    && m.content in lock.requested && m.content in lock.items
    && ReleaseOf(m.content, lock.items[m.content])
       == Release(m.content, m.version, lock.items[m.content].kind, Some(Modrinth(m.content, m.version)))
    && lock.items[m.content].kind != Modpack
    && lock.requested[m.content].version == Exact(m.version)
  }

  ghost predicate AllBound(lock: Lock)
  {
    forall m :: m in lock.members ==> Bound(lock, m)
  }

  ghost predicate OwnershipMeaning(members: seq<Member>, manual: set<Id>)
  {
    && AtMostOneOwner(members)
    && forall id :: id in Contents(members) ==> (Owned(members, id) <==> id !in manual)
  }

  ghost predicate KeysMeaning(lock: Lock, manual: set<Id>)
  {
    && lock.requested.Keys == manual + PackIds(lock) + Contents(lock.members)
    && manual !! PackIds(lock)
  }

  /** `KeysMeaning`, for one identifier. */
  ghost predicate KeyMeans(lock: Lock, manual: set<Id>, id: Id)
  {
    && (id in manual ==> id in lock.requested && id !in PackIds(lock))
    && (id in Contents(lock.members) ==> id in lock.requested)
    && (id in lock.requested ==> id in manual || id in PackIds(lock) || id in Contents(lock.members))
  }

  lemma EveryKeyMeans(lock: Lock, manual: set<Id>)
    requires forall id :: KeyMeans(lock, manual, id)
    ensures KeysMeaning(lock, manual)
  {
    forall id
      ensures id in lock.requested <==> id in manual + PackIds(lock) + Contents(lock.members)
      ensures !(id in manual && id in PackIds(lock))
    {
      assert KeyMeans(lock, manual, id);
    }
  }

  ghost predicate Inv(s: State)
  {
    && s.lock.requested.Keys <= s.lock.items.Keys
    && StrictlyOrdered(s.lock.members)
    && AllBound(s.lock)
    && OwnershipMeaning(s.lock.members, s.manual)
    && KeysMeaning(s.lock, s.manual)
    && s.lock.requested == Reconciled(s.lock.requested, s.lock.members)
  }

  /** Who asked for what, after an operation. */
  function NextManual(s: State, op: Operation): set<Id>
  {
    match op
    case InstallPack(_, _) => s.manual
    case InstallContent(id, _, _, _, _) => s.manual + {id}
    case SetEnabled(id, _) =>
      if id in s.lock.items && s.lock.items[id].kind == Modpack then s.manual else s.manual + {id}
    case Remove(id) => s.manual - {id}
  }

  ghost predicate Step(s: State, op: Operation, t: State)
  {
    Performs(s.lock, op, t.lock) && t.manual == NextManual(s, op)
  }

  // ----- Facts about memberships ----------------------------------------------------------------

  /** An heir is a kept membership, up to ownership. */
  lemma HeirOf(members: seq<Member>, orphans: set<Id>, m: Member) returns (k: Member)
    requires m in Heirs(members, orphans)
    ensures k in members && m == k.(ownsSelection := m.ownsSelection)
  {
    var r := Heirs(members, orphans);
    var i :| 0 <= i < |r| && r[i] == m;
    k := members[i];
  }

  lemma HeirsContents(members: seq<Member>, orphans: set<Id>)
    ensures Contents(Heirs(members, orphans)) == Contents(members)
  {
    var r := Heirs(members, orphans);
    forall id
      ensures id in Contents(r) <==> id in Contents(members)
    {
      if m :| m in r && m.content == id {
        var k := HeirOf(members, orphans, m);
      }
      if k :| k in members && k.content == id {
        var i :| 0 <= i < |members| && members[i] == k;
        assert r[i] in r;
      }
    }
  }

  lemma HeirsOwned(members: seq<Member>, orphans: set<Id>, id: Id)
    ensures Owned(Heirs(members, orphans), id) <==>
            Owned(members, id) || (id in orphans && id in Contents(members))
  {
    var r := Heirs(members, orphans);
    if m :| m in r && m.content == id && m.ownsSelection {
      var i :| 0 <= i < |r| && r[i] == m;
      assert members[i] in members;
    }
    if Owned(members, id) {
      var k :| k in members && k.content == id && k.ownsSelection;
      var i :| 0 <= i < |members| && members[i] == k;
      assert r[i] in r;
    }
    if id in orphans && id in Contents(members) {
      var i := FirstExists(members, id);
      assert r[i] in r;
    }
  }

  lemma HeirsOneOwner(members: seq<Member>, orphans: set<Id>)
    requires AtMostOneOwner(members)
    requires forall id :: id in orphans ==> !Owned(members, id)
    ensures AtMostOneOwner(Heirs(members, orphans))
  {
    var r := Heirs(members, orphans);
    forall i, j | 0 <= i < j < |r| && r[i].content == r[j].content
      ensures !(r[i].ownsSelection && r[j].ownsSelection)
    {
      assert members[i] in members && members[j] in members;
    }
  }

  lemma HeirsStrictlyOrdered(members: seq<Member>, orphans: set<Id>)
    requires StrictlyOrdered(members)
    ensures StrictlyOrdered(Heirs(members, orphans))
  {
  }

  /** Between two lists of one-owner memberships, two owners of one content are one membership. */
  lemma SameOwner(members: seq<Member>, m: Member, n: Member)
    requires AtMostOneOwner(members)
    requires m in members && n in members && m.content == n.content && m.ownsSelection && n.ownsSelection
    ensures m == n
  {
    var i :| 0 <= i < |members| && members[i] == m;
    var j :| 0 <= j < |members| && members[j] == n;
  }

  lemma {:induction false} KeepOneOwner(members: seq<Member>, pack: Option<Id>)
    requires AtMostOneOwner(members)
    ensures AtMostOneOwner(Keep(members, pack))
  {
    if members != [] {
      var tail, kept := members[1..], Keep(members[1..], pack);
      KeepOneOwner(tail, pack);
      forall j | 0 <= j < |kept| && kept[j].content == members[0].content
        ensures !(members[0].ownsSelection && kept[j].ownsSelection)
      {
        assert kept[j] in tail;
        var k :| 0 <= k < |tail| && tail[k] == kept[j];
        assert members[k + 1] == kept[j];
      }
    }
  }

  /** What a departing pack owned, nobody else owns. */
  lemma OrphansUnowned(members: seq<Member>, pack: Option<Id>, retained: set<Id>, id: Id)
    requires AtMostOneOwner(members) && id in Orphans(members, pack, retained)
    ensures !Owned(Keep(members, pack), id) && Owned(members, id)
  {
    var m :| m in members && Some(m.pack) == pack && m.ownsSelection && m.content == id;
    if n :| n in Keep(members, pack) && n.content == id && n.ownsSelection {
      SameOwner(members, m, n);
    }
  }

  lemma OwnedSplit(members: seq<Member>, pack: Option<Id>, id: Id)
    ensures Owned(members, id) <==> Owned(Keep(members, pack), id) || id in Orphans(members, pack, {})
  {
    if m :| m in members && m.content == id && m.ownsSelection {
      if Some(m.pack) != pack {
        assert m in Keep(members, pack);
      } else {
        assert m.content in Orphans(members, pack, {});
      }
    }
  }

  // ----- Facts about resolution -------------------------------------------------------------------

  /** An identifier keeps its kind, and at the same version its whole release. */
  lemma ResolutionKeeps(pre: Lock, added: set<Release>, post: Lock, id: Id)
    requires Resolution(Catalog(pre.items, added), post.requested, post.items)
    requires id in pre.items && id in post.items
    ensures post.items[id].kind == pre.items[id].kind
    ensures post.items[id].version == pre.items[id].version ==>
              ReleaseOf(id, post.items[id]) == ReleaseOf(id, pre.items[id])
  {
    assert ReleaseOf(id, pre.items[id]) in Catalog(pre.items, added);
  }

  lemma ResolutionUses(pre: Lock, added: set<Release>, post: Lock, r: Release)
    requires Resolution(Catalog(pre.items, added), post.requested, post.items)
    requires r in added && r.id in post.items
    ensures post.items[r.id].kind == r.kind
    ensures post.items[r.id].version == r.version ==> ReleaseOf(r.id, post.items[r.id]) == r
  {
    assert r in Catalog(pre.items, added);
  }

  /** A bound membership stays bound while it and its selections survive. */
  lemma StaysBound(pre: Lock, added: set<Release>, post: Lock, k: Member, m: Member)
    requires Resolution(Catalog(pre.items, added), post.requested, post.items)
    requires Bound(pre, k) && m.pack == k.pack && m.content == k.content && m.version == k.version
    requires m.pack in post.requested && m.content in post.requested
    requires post.requested[m.content].version == Exact(m.version)
    ensures Bound(post, m)
  {
    ResolutionKeeps(pre, added, post, m.pack);
    ResolutionKeeps(pre, added, post, m.content);
  }

  // ----- Facts about reconciliation -----------------------------------------------------------------

  /** No pack is itself a member content. */
  predicate PacksApart(members: seq<Member>)
  {
    forall m, n :: m in members && n in members ==> m.pack != n.content
  }

  lemma BoundPacksApart(lock: Lock)
    requires AllBound(lock)
    ensures PacksApart(lock.members)
  {
    forall m, n | m in lock.members && n in lock.members
      ensures m.pack != n.content
    {
      assert Bound(lock, m) && Bound(lock, n);
    }
  }

  lemma PackIsNoContent(lock: Lock, id: Id)
    requires AllBound(lock) && id in lock.items && lock.items[id].kind == Modpack
    ensures id !in Contents(lock.members)
  {
    forall m | m in lock.members
      ensures m.content != id
    {
      assert Bound(lock, m);
    }
  }

  /** Reconciling leaves pack switches alone, so demands are the same before and after. */
  lemma DemandSurvives(requested: map<Id, Selection>, members: seq<Member>, id: Id)
    requires PacksApart(members)
    ensures Demanded(Reconciled(requested, members), members, id) <==> Demanded(requested, members, id)
  {
    var after := Reconciled(requested, members);
    forall m | m in members
      ensures Demands(after, m) <==> Demands(requested, m)
    {
      assert m.pack !in Contents(members);
    }
  }

  lemma ReconcileIdempotent(requested: map<Id, Selection>, members: seq<Member>)
    requires PacksApart(members)
    ensures Reconciled(Reconciled(requested, members), members) == Reconciled(requested, members)
  {
    var after := Reconciled(requested, members);
    forall id | id in requested
      ensures ReconciledSelection(after, members, id) == after[id]
    {
      DemandSurvives(requested, members, id);
    }
  }

  lemma VersionOfBound(members: seq<Member>, m: Member)
    requires m in members
    requires forall n :: n in members && n.content == m.content ==> n.version == m.version
    ensures VersionOf(members, m.content) == m.version
  {
  }

  lemma {:induction false} StrictlyOrderedOnce(members: seq<Member>, m: Member)
    requires StrictlyOrdered(members)
    ensures multiset(members)[m] <= 1
  {
    if members != [] {
      StrictlyOrderedOnce(members[1..], m);
      assert members == [members[0]] + members[1..];
      if m in members[1..] {
        var j :| 0 <= j < |members[1..]| && members[1..][j] == m;
        assert !SameMembership(members[0], members[j + 1]);
      }
    }
  }
}
