/** What users can rely on: switches end where they were put, and a removed pack leaves no trace. */
module PackLaws {
  import opened Wrappers
  import opened ContentModel
  import opened PackMembership
  import opened PackOperations
  import opened PackOwnership
  import opened PackInstallation
  import opened PackLifecycle

  // ----- Switches -------------------------------------------------------------------------------------

  /** Content a pack owns is on exactly when an enabled pack demands it; demanded content is on. */
  lemma SwitchMeaning(s: State, id: Id)
    requires Inv(s) && id in Contents(s.lock.members)
    ensures id in s.lock.requested
    ensures Owned(s.lock.members, id) ==>
              (s.lock.requested[id].enabled <==> Demanded(s.lock.requested, s.lock.members, id))
    ensures Demanded(s.lock.requested, s.lock.members, id) ==> s.lock.requested[id].enabled
  {
    var m :| m in s.lock.members && m.content == id;
    assert Bound(s.lock, m);
    assert s.lock.requested[id] == Reconciled(s.lock.requested, s.lock.members)[id];
  }

  /** A successful switch leaves that selection exactly as asked. */
  lemma SwitchTakesEffect(s: State, id: Id, enabled: bool, post: Lock)
    requires Inv(s) && Toggled(s.lock, id, enabled, post)
    ensures id in post.requested && post.requested[id].enabled == enabled
  {
    var switched := Switched(s.lock, id, enabled);
    ReconciledKeys(switched, post.members);
    ClaimedContents(s.lock, id, id);
    if Claims(s.lock, id) {
      DisownedFacts(s.lock.members, id, id);
      if !enabled {
        SwitchDemands(s, id, enabled);
      }
    } else if id in Contents(s.lock.members) {
      PackIsNoContent(s.lock, id);
    }
  }

  /** Switching a content changes no demand on it. */
  lemma SwitchDemands(s: State, id: Id, enabled: bool)
    requires Inv(s) && id in s.lock.items && Claims(s.lock, id)
    ensures Demanded(Switched(s.lock, id, enabled), ClaimedMembers(s.lock, id), id)
        ==> Demanded(s.lock.requested, s.lock.members, id)
  {
    var switched := Switched(s.lock, id, enabled);
    if m :| m in ClaimedMembers(s.lock, id) && m.content == id && Demands(switched, m) {
      var k := ClaimedOf(s, id, m);
      assert k.pack != id;
      assert Demands(s.lock.requested, k);
    }
  }

  lemma PackSwitchSelection(s: State, pack: Id, enabled: bool, post: Lock, id: Id)
    requires Inv(s) && pack in PackIds(s.lock) && Toggled(s.lock, pack, enabled, post) && id in s.lock.requested
    ensures post.members == s.lock.members && id in post.requested
    ensures id !in Contents(s.lock.members) ==>
              post.requested[id]
              == if id == pack then s.lock.requested[id].(enabled := enabled) else s.lock.requested[id]
    ensures id in Contents(s.lock.members) ==>
              post.requested[id]
              == Selection(s.lock.requested[id].version,
                           (!Owned(s.lock.members, id) && s.lock.requested[id].enabled)
                           || Demanded(Switched(s.lock, pack, enabled), s.lock.members, id))
  {
    PackIsNoContent(s.lock, pack);
    assert post.members == s.lock.members;
    SwitchedSelection(s.lock, pack, enabled, post, id);
    if id in Contents(s.lock.members) {
      SwitchKeepsVersion(s, pack, enabled, post, id);
    }
  }

  lemma SwitchedSelection(pre: Lock, pack: Id, enabled: bool, post: Lock, id: Id)
    requires pack in PackIds(pre) && pack !in Contents(pre.members) && post.members == pre.members
    requires post.requested == Reconciled(Switched(pre, pack, enabled), pre.members) && id in pre.requested
    ensures id in post.requested
    ensures id !in Contents(pre.members) ==>
              post.requested[id] == if id == pack then pre.requested[id].(enabled := enabled) else pre.requested[id]
    ensures id in Contents(pre.members) ==>
              post.requested[id].enabled
              == ((!Owned(pre.members, id) && pre.requested[id].enabled)
                  || Demanded(Switched(pre, pack, enabled), pre.members, id))
  {
  }

  lemma SwitchKeepsVersion(s: State, pack: Id, enabled: bool, post: Lock, id: Id)
    requires Inv(s) && Toggled(s.lock, pack, enabled, post) && id in Contents(s.lock.members)
    requires post.members == s.lock.members
    ensures id in s.lock.requested && id in post.requested
    ensures post.requested[id].version == s.lock.requested[id].version
  {
    var m :| m in s.lock.members && m.content == id;
    ToggleReconciles(s, pack, enabled);
    ReconciledExact(Switched(s.lock, pack, enabled), post.members, m);
    assert Bound(s.lock, m);
  }

  lemma PackSwitchManual(s: State, pack: Id, enabled: bool)
    requires pack in PackIds(s.lock)
    ensures NextManual(s, SetEnabled(pack, enabled)) == s.manual
  {
  }

  lemma PackSwitchInv(s: State, pack: Id, enabled: bool, post: Lock)
    requires Inv(s) && pack in PackIds(s.lock) && Toggled(s.lock, pack, enabled, post)
    ensures Inv(State(post, s.manual))
  {
    PackSwitchManual(s, pack, enabled);
    ToggleKeepsInv(s, pack, enabled, post);
  }

  lemma PackSwitchKeys(pre: Lock, pack: Id, enabled: bool, post: Lock)
    requires pre.requested.Keys <= pre.items.Keys && pack in PackIds(pre)
    requires post.requested == Reconciled(Switched(pre, pack, enabled), post.members)
    requires Resolution(Catalog(pre.items, {}), post.requested, post.items)
    ensures post.requested.Keys == pre.requested.Keys && pack in PackIds(post)
  {
    ReconciledKeys(Switched(pre, pack, enabled), post.members);
    TogglePacks(pre, pack, enabled, post, pack);
  }

  lemma SameSelections(a: map<Id, Selection>, b: map<Id, Selection>)
    requires a.Keys == b.Keys
    requires forall id :: id in a ==> a[id] == b[id]
    ensures a == b
  {
  }

  /** Switching an enabled pack off and on again puts every selection back. */
  lemma PackOffOn(s: State, pack: Id, mid: Lock, post: Lock)
    requires Inv(s) && pack in PackIds(s.lock) && s.lock.requested[pack].enabled
    requires Toggled(s.lock, pack, false, mid) && Toggled(mid, pack, true, post)
    ensures post.requested == s.lock.requested && post.members == s.lock.members
  {
    PackSwitchInv(s, pack, false, mid);
    PackSwitchKeys(s.lock, pack, false, mid);
    PackSwitchKeys(mid, pack, true, post);
    PackIsNoContent(s.lock, pack);
    forall id | id in post.requested
      ensures post.requested[id] == s.lock.requested[id]
    {
      PackOffOnSelection(s, pack, mid, post, id);
    }
    SameSelections(post.requested, s.lock.requested);
  }

  lemma PackOffOnSelection(s: State, pack: Id, mid: Lock, post: Lock, id: Id)
    requires Inv(s) && pack in PackIds(s.lock) && s.lock.requested[pack].enabled
    requires Toggled(s.lock, pack, false, mid) && Toggled(mid, pack, true, post)
    requires Inv(State(mid, s.manual)) && pack in PackIds(mid) && id in s.lock.requested
    ensures id in post.requested && post.requested[id] == s.lock.requested[id]
  {
    var t := State(mid, s.manual);
    PackSwitchSelection(s, pack, false, mid, id);
    PackSwitchSelection(t, pack, true, post, id);
    if id in Contents(s.lock.members) {
      OffDemands(s, pack, id);
      OnDemands(s, pack, mid, id);
      SwitchMeaning(s, id);
    }
  }

  lemma OffDemands(s: State, pack: Id, id: Id)
    requires Inv(s) && pack in PackIds(s.lock)
    ensures Demanded(Switched(s.lock, pack, false), s.lock.members, id)
        ==> Demanded(s.lock.requested, s.lock.members, id)
  {
    if m :| m in s.lock.members && m.content == id && Demands(Switched(s.lock, pack, false), m) {
      assert Bound(s.lock, m);
      assert Demands(s.lock.requested, m);
    }
  }

  lemma OnDemands(s: State, pack: Id, mid: Lock, id: Id)
    requires Inv(s) && pack in PackIds(s.lock) && s.lock.requested[pack].enabled
    requires Toggled(s.lock, pack, false, mid) && pack in PackIds(mid)
    ensures Demanded(Switched(mid, pack, true), s.lock.members, id)
       <==> Demanded(s.lock.requested, s.lock.members, id)
  {
    forall m | m in s.lock.members
      ensures Demands(Switched(mid, pack, true), m) <==> Demands(s.lock.requested, m)
    {
      OnDemand(s, pack, mid, m);
    }
  }

  /** A pack switched back on demands what it did, and the other packs never stopped. */
  lemma OnDemand(s: State, pack: Id, mid: Lock, m: Member)
    requires Inv(s) && pack in PackIds(s.lock) && s.lock.requested[pack].enabled
    requires Toggled(s.lock, pack, false, mid) && pack in PackIds(mid) && m in s.lock.members
    ensures Demands(Switched(mid, pack, true), m) <==> Demands(s.lock.requested, m)
  {
    assert Bound(s.lock, m);
    PackIsNoContent(s.lock, m.pack);
    PackSwitchSelection(s, pack, false, mid, m.pack);
  }

  // ----- Removing every pack ------------------------------------------------------------------------------

  /** Removing a pack leaves every manual selection exactly as enabled as it was. */
  lemma RemovalSparesManual(s: State, pack: Id, post: Lock, id: Id)
    requires Inv(s) && Removed(s.lock, pack, post) && s.lock.items[pack].kind == Modpack && id in s.manual
    ensures id in s.lock.requested && id in post.requested
    ensures post.requested[id].enabled == s.lock.requested[id].enabled
  {
    var base := Without(s.lock.requested, RemovalTargets(s.lock, pack));
    ManualStays(s, Some(pack), {}, id);
    ReconciledKeys(base, post.members);
    if id in Contents(post.members) {
      RemovalOwnership(s, pack, id);
      RemovalDemands(s, pack, id);
      HeirsContents(Keep(s.lock.members, Some(pack)), Orphans(s.lock.members, Some(pack), {}));
      SwitchMeaning(s, id);
    }
  }

  lemma RemovalDemands(s: State, pack: Id, id: Id)
    requires Inv(s) && RemovalAllowed(s.lock, pack) && s.lock.items[pack].kind == Modpack
    ensures Demanded(Without(s.lock.requested, RemovalTargets(s.lock, pack)), MembersAfterRemoval(s.lock, pack), id)
        ==> Demanded(s.lock.requested, s.lock.members, id)
  {
    var base := Without(s.lock.requested, RemovalTargets(s.lock, pack));
    if m :| m in MembersAfterRemoval(s.lock, pack) && m.content == id && Demands(base, m) {
      var k := RemovalOf(s, pack, m);
      assert Demands(s.lock.requested, k);
    }
  }

  /** A run that only removes packs. */
  ghost predicate RemovesPacks(states: seq<State>, ops: seq<Operation>)
  {
    && Run(states, ops)
    && forall i :: 0 <= i < |ops| ==>
         ops[i].Remove? && ops[i].id in states[i].lock.items && states[i].lock.items[ops[i].id].kind == Modpack
  }

  lemma RemovalStep(s: State, op: Operation, t: State, id: Id)
    requires Inv(s) && Step(s, op, t) && op.Remove?
    requires op.id in s.lock.items && s.lock.items[op.id].kind == Modpack
    ensures Inv(t) && t.manual == s.manual
    ensures id in s.manual ==>
              && id in s.lock.requested && id in t.lock.requested
              && t.lock.requested[id].enabled == s.lock.requested[id].enabled
  {
    RemoveKeepsInv(s, op.id, t.lock);
    PackNotManual(s, op.id);
    if id in s.manual {
      RemovalSparesManual(s, op.id, t.lock, id);
    }
  }

  lemma PackNotManual(s: State, id: Id)
    requires KeysMeaning(s.lock, s.manual) && id in s.lock.items && s.lock.items[id].kind == Modpack
    ensures id !in s.manual && s.manual - {id} == s.manual
  {
    assert id in s.manual ==> id in PackIds(s.lock);
  }

  /** Manual ids are the same at both ends, still selected, and switched as before. */
  ghost predicate ManualSpared(s: State, t: State, id: Id)
  {
    && t.manual == s.manual
    && (id in s.manual ==>
         && id in s.lock.requested && id in t.lock.requested
         && t.lock.requested[id].enabled == s.lock.requested[id].enabled)
  }

  lemma {:induction false} RemovalsSpareManual(states: seq<State>, ops: seq<Operation>, id: Id)
    requires RemovesPacks(states, ops) && Inv(states[0])
    ensures Inv(states[|ops|]) && ManualSpared(states[0], states[|ops|], id)
  {
    if ops == [] {
      if id in states[0].manual {
        ManualStays(states[0], None, {}, id);
      }
    } else {
      RemovalStep(states[0], ops[0], states[1], id);
      RemovalsSpareManual(states[1..], ops[1..], id);
    }
  }

  /** Removing all packs, in any order, leaves exactly what users chose, switched as it was. */
  lemma RemovingEveryPack(states: seq<State>, ops: seq<Operation>)
    requires RemovesPacks(states, ops) && Inv(states[0]) && PackIds(states[|ops|].lock) == {}
    ensures states[|ops|].lock.requested.Keys == states[0].manual
    ensures forall id :: id in states[0].manual ==>
              && id in states[0].lock.requested
              && states[|ops|].lock.requested[id].enabled == states[0].lock.requested[id].enabled
  {
    RemovalsSpareManual(states, ops, "");
    forall id | id in states[0].manual
      ensures id in states[0].lock.requested && id in states[|ops|].lock.requested
      ensures states[|ops|].lock.requested[id].enabled == states[0].lock.requested[id].enabled
    {
      RemovalsSpareManual(states, ops, id);
    }
    NoPacksLeavesManual(states[|ops|]);
  }
}
