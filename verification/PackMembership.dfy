/**
 * Modpack memberships: which pack answers for a selection, who inherits it when a pack goes, and
 * what a selection becomes once every membership has had its say.
 */
module PackMembership {
  import opened Wrappers
  import opened Ordering
  import opened ContentModel

  const MAX_PACK_MEMBERS := 4096
  const MAX_SELECTIONS := 4096

  datatype MembershipError =
    | SelectionMissing
    | MemberVersionConflict
    | OwnerDuplicate
    | PackSelectionConflict
    | MemberCountInvalid
    | SelectionCountInvalid

  datatype MemberSpec = MemberSpec(version: Version, enabled: bool)

  datatype PackTransition = PackTransition(previous: Option<Id>, members: seq<Member>, removals: set<Id>)

  // ----- Losing a pack ------------------------------------------------------------------------

  /** The memberships of every other pack. */
  function Keep(members: seq<Member>, pack: Option<Id>): (r: seq<Member>)
    ensures forall m :: m in r <==> m in members && Some(m.pack) != pack
    ensures |r| <= |members|
  {
    if members == [] then []
    else if Some(members[0].pack) == pack then Keep(members[1..], pack)
    else [members[0]] + Keep(members[1..], pack)
  }

  /** Content whose selection existed only for the departing pack's sake. */
  function Orphans(members: seq<Member>, pack: Option<Id>, retained: set<Id>): set<Id>
  {
    set m | m in members && Some(m.pack) == pack && m.ownsSelection && m.content !in retained :: m.content
  }

  predicate FirstOfItsContent(members: seq<Member>, i: nat)
    requires i < |members|
  {
    forall j :: 0 <= j < i ==> members[j].content != members[i].content
  }

  /** The first remaining membership of an orphan takes its selection over. */
  function Heirs(members: seq<Member>, orphans: set<Id>): (r: seq<Member>)
    ensures |r| == |members|
  {
    seq(|members|, i requires 0 <= i < |members| =>
      if members[i].content in orphans && FirstOfItsContent(members, i)
      then members[i].(ownsSelection := true)
      else members[i])
  }

  /** The selections that leave with the pack: its own, and orphans no other pack lists. */
  function Removals(members: seq<Member>, pack: Option<Id>, retained: set<Id>): set<Id>
  {
    (if pack.Some? then {pack.value} else {})
    + (Orphans(members, pack, retained) - Contents(Keep(members, pack)))
  }

  lemma {:induction false} KeepAppend(members: seq<Member>, m: Member, pack: Option<Id>)
    ensures Keep(members + [m], pack) == Keep(members, pack) + if Some(m.pack) == pack then [] else [m]
  {
    if members != [] {
      assert (members + [m])[1..] == members[1..] + [m];
      KeepAppend(members[1..], m, pack);
    }
  }

  lemma {:induction false} KeepStrictlyOrdered(members: seq<Member>, pack: Option<Id>)
    requires StrictlyOrdered(members)
    ensures StrictlyOrdered(Keep(members, pack))
  {
    if members != [] {
      KeepStrictlyOrdered(members[1..], pack);
      var tail := Keep(members[1..], pack);
      forall j | 0 <= j < |tail|
        ensures MemberAtMost(members[0], tail[j]) && !SameMembership(members[0], tail[j])
      {
        assert tail[j] in members[1..];
      }
    }
  }

  lemma FirstExists(members: seq<Member>, id: Id) returns (i: nat)
    requires id in Contents(members)
    ensures i < |members| && members[i].content == id && FirstOfItsContent(members, i)
  {
    var k :| 0 <= k < |members| && members[k].content == id;
    i := 0;
    while members[i].content != id
      invariant 0 <= i <= k
      invariant forall j :: 0 <= j < i ==> members[j].content != id
      decreases k - i
    {
      i := i + 1;
    }
  }

  /** Splits off one pack's memberships, as `retain` does. */
  method RetainOthers(members: seq<Member>, pack: Option<Id>) returns (rest: seq<Member>, removed: seq<Member>)
    ensures rest == Keep(members, pack)
    ensures forall m :: m in removed <==> m in members && Some(m.pack) == pack
  {
    rest, removed := [], [];
    for i := 0 to |members|
      invariant rest == Keep(members[..i], pack)
      invariant forall m :: m in removed <==> m in members[..i] && Some(m.pack) == pack
    {
      assert members[..i + 1] == members[..i] + [members[i]];
      KeepAppend(members[..i], members[i], pack);
      if Some(members[i].pack) == pack {
        removed := removed + [members[i]];
      } else {
        rest := rest + [members[i]];
      }
    }
    assert members[..|members|] == members;
  }

  /** Hands each orphan to its first remaining membership, or schedules its selection for removal. */
  method HandOver(rest: seq<Member>, removed: seq<Member>, retained: set<Id>)
    returns (members: seq<Member>, unclaimed: set<Id>)
    ensures var orphans := set m | m in removed && m.ownsSelection && m.content !in retained :: m.content;
            members == Heirs(rest, orphans) && unclaimed == orphans - Contents(rest)
  {
    members, unclaimed := rest, {};
    ghost var orphans: set<Id> := {};
    for i := 0 to |removed|
      invariant orphans == set m | m in removed[..i] && m.ownsSelection && m.content !in retained :: m.content
      invariant members == Heirs(rest, orphans)
      invariant unclaimed == orphans - Contents(rest)
    {
      var id := removed[i].content;
      assert removed[..i + 1] == removed[..i] + [removed[i]];
      if removed[i].ownsSelection && id !in retained {
        var k := 0;
        while k < |members| && members[k].content != id
          invariant 0 <= k <= |members|
          invariant forall j :: 0 <= j < k ==> rest[j].content != id
        {
          k := k + 1;
        }
        if k < |members| {
          assert rest[k] in rest;
          members := members[k := members[k].(ownsSelection := true)];
        } else {
          assert id !in Contents(rest);
          unclaimed := unclaimed + {id};
        }
        orphans := orphans + {id};
      }
    }
    assert removed[..|removed|] == removed;
  }

  /** Takes one pack's memberships out: what remains, which selections go, and which it owned. */
  method DropPack(members: seq<Member>, pack: Option<Id>, retained: set<Id>)
    returns (remaining: seq<Member>, removals: set<Id>, carried: set<Id>)
    ensures remaining == Heirs(Keep(members, pack), Orphans(members, pack, retained))
    ensures removals == Removals(members, pack, retained)
    ensures carried == set m | m in members && Some(m.pack) == pack && m.ownsSelection :: m.content
  {
    var rest, removed := RetainOthers(members, pack);
    var unclaimed: set<Id>;
    remaining, unclaimed := HandOver(rest, removed, retained);
    assert (set m | m in removed && m.ownsSelection && m.content !in retained :: m.content)
        == Orphans(members, pack, retained);
    removals := (if pack.Some? then {pack.value} else {}) + unclaimed;
    carried := set m | m in removed && m.ownsSelection :: m.content;
  }

  // ----- Gaining a pack -----------------------------------------------------------------------

  predicate SamePackSource(left: Option<Source>, right: Option<Source>)
  {
    match (left, right)
    case (Some(Modrinth(p, _)), Some(Modrinth(q, _))) => p == q
    case _ => false
  }

  /** An installed pack of the same Modrinth project; local packs are never matched. */
  predicate ReplacedBy(item: Item, source: Option<Source>)
  {
    item.kind == Modpack && SamePackSource(item.source, source)
  }

  /** `previous` is the first installed pack, in identifier order, that `source` replaces. */
  ghost predicate IsPreviousPack(items: map<Id, Item>, source: Option<Source>, previous: Option<Id>)
  {
    match previous
    case None => forall id :: id in items ==> !ReplacedBy(items[id], source)
    case Some(p) =>
      && p in items && ReplacedBy(items[p], source)
      && forall id :: id in items && ReplacedBy(items[id], source) ==> AtMost(p, id)
  }

  method FindPreviousPack(items: map<Id, Item>, source: Option<Source>) returns (previous: Option<Id>)
    ensures IsPreviousPack(items, source, previous)
  {
    previous := None;
    var todo := items.Keys;
    while todo != {}
      invariant todo <= items.Keys
      invariant match previous
                case None => forall id :: id in items && id !in todo ==> !ReplacedBy(items[id], source)
                case Some(p) =>
                  && p in items && ReplacedBy(items[p], source)
                  && forall id :: id in items && id !in todo && ReplacedBy(items[id], source) ==> AtMost(p, id)
      decreases todo
    {
      var id :| id in todo;
      todo := todo - {id};
      if ReplacedBy(items[id], source) && (previous.None? || AtMost(id, previous.value)) {
        forall other | other in items && other !in todo && ReplacedBy(items[other], source)
          ensures AtMost(id, other)
        {
          AtMostReflexive(id);
          if previous.Some? && other != id {
            AtMostTransitive(id, previous.value, other);
          }
        }
        previous := Some(id);
      } else if ReplacedBy(items[id], source) {
        AtMostTotal(id, previous.value);
      }
    }
  }

  /** Selections the departing pack of the same identity owned. */
  function CarriedIds(current: Lock, previous: Option<Id>): set<Id>
  {
    set m | m in current.members && Some(m.pack) == previous && m.ownsSelection :: m.content
  }

  /** The other packs' memberships once the replaced pack has handed its orphans over. */
  function Remaining(current: Lock, previous: Option<Id>, specs: map<Id, MemberSpec>): seq<Member>
  {
    Heirs(Keep(current.members, previous), Orphans(current.members, previous, specs.Keys))
  }

  function TransitionRemovals(current: Lock, previous: Option<Id>, specs: map<Id, MemberSpec>): set<Id>
  {
    Removals(current.members, previous, specs.Keys)
  }

  function StillRequested(current: Lock, previous: Option<Id>, specs: map<Id, MemberSpec>): set<Id>
  {
    current.requested.Keys - TransitionRemovals(current, previous, specs)
  }

  /** A new membership owns its selection if the old version did, or if nobody else asked for it. */
  ghost function Joining(pack: Id, id: Id, spec: MemberSpec, carried: set<Id>, requested: set<Id>,
                         remaining: seq<Member>): Member
  {
    Member(pack, id, spec.version, spec.enabled, id in carried || (id !in requested && !Owned(remaining, id)))
  }

  ghost function NewMember(current: Lock, pack: Id, previous: Option<Id>, specs: map<Id, MemberSpec>, id: Id): Member
    requires id in specs
  {
    Joining(pack, id, specs[id], CarriedIds(current, previous), StillRequested(current, previous, specs),
            Remaining(current, previous, specs))
  }

  ghost function NewMembers(current: Lock, pack: Id, previous: Option<Id>, specs: map<Id, MemberSpec>): set<Member>
  {
    JoiningAll(pack, specs, CarriedIds(current, previous), StillRequested(current, previous, specs),
               Remaining(current, previous, specs))
  }

  ghost function JoiningAll(pack: Id, specs: map<Id, MemberSpec>, carried: set<Id>, requested: set<Id>,
                            remaining: seq<Member>): set<Member>
  {
    JoinedSoFar(pack, specs, carried, requested, remaining, {})
  }

  /** The new memberships of every content but those still to be done. */
  ghost function JoinedSoFar(pack: Id, specs: map<Id, MemberSpec>, carried: set<Id>, requested: set<Id>,
                             remaining: seq<Member>, todo: set<Id>): set<Member>
  {
    set id | id in specs && id !in todo :: Joining(pack, id, specs[id], carried, requested, remaining)
  }

  /** Another pack pins this content to a different version. */
  ghost predicate VersionClash(remaining: seq<Member>, id: Id, version: Version)
  {
    exists m :: m in remaining && m.content == id && m.version != version
  }

  /** The content is installed at another version that is not the departing pack's to change. */
  predicate SelectionClash(items: map<Id, Item>, carried: set<Id>, id: Id, version: Version)
  {
    id !in carried && id in items && items[id].version != version
  }

  ghost predicate NoClash(specs: map<Id, MemberSpec>, items: map<Id, Item>, carried: set<Id>, remaining: seq<Member>, id: Id)
    requires id in specs
  {
    && !VersionClash(remaining, id, specs[id].version)
    && !SelectionClash(items, carried, id, specs[id].version)
  }

  /** The selections the profile would have afterwards, counted before anything is downloaded. */
  function ResultingSelections(current: Lock, pack: Id, previous: Option<Id>, specs: map<Id, MemberSpec>): set<Id>
  {
    (current.requested.Keys - TransitionRemovals(current, previous, specs)) + {pack} + specs.Keys
  }

  ghost predicate IsTransition(current: Lock, pack: Id, specs: map<Id, MemberSpec>, t: PackTransition)
  {
    && Ordered(t.members, MemberAtMost)
    && multiset(t.members)
       == multiset(Remaining(current, t.previous, specs)) + multiset(NewMembers(current, pack, t.previous, specs))
    && t.removals == TransitionRemovals(current, t.previous, specs)
  }

  /** Every check the transition makes on the way. */
  ghost predicate TransitionAllowed(current: Lock, pack: Id, previous: Option<Id>, specs: map<Id, MemberSpec>)
  {
    && (forall id :: id in specs ==>
         NoClash(specs, current.items, CarriedIds(current, previous), Remaining(current, previous, specs), id))
    && |Remaining(current, previous, specs)| + |specs| <= MAX_PACK_MEMBERS
    && |ResultingSelections(current, pack, previous, specs)| <= MAX_SELECTIONS
  }

  /** Why a transition may be refused. */
  ghost predicate Refusal(current: Lock, pack: Id, previous: Option<Id>, specs: map<Id, MemberSpec>, e: MembershipError)
  {
    match e
    case MemberVersionConflict => 
      exists id :: id in specs && VersionClash(Remaining(current, previous, specs), id, specs[id].version)
    case PackSelectionConflict => 
      exists id :: id in specs && SelectionClash(current.items, CarriedIds(current, previous), id, specs[id].version)
    case MemberCountInvalid => |Remaining(current, previous, specs)| + |specs| > MAX_PACK_MEMBERS
    case SelectionCountInvalid => |ResultingSelections(current, pack, previous, specs)| > MAX_SELECTIONS
    case _ => false
  }

  /** Adds the new pack's memberships behind the remaining ones, one content at a time. */
  method JoinMembers(pack: Id, specs: map<Id, MemberSpec>, items: map<Id, Item>, carried: set<Id>,
                     requested: set<Id>, remaining: seq<Member>)
    returns (r: Result<seq<Member>, MembershipError>)
    ensures r.Success? ==>
              && multiset(r.value)
                 == multiset(remaining) + multiset(JoiningAll(pack, specs, carried, requested, remaining))
              && |r.value| == |remaining| + |specs|
              && forall id :: id in specs ==> NoClash(specs, items, carried, remaining, id)
    ensures r.Failure? ==>
              match r.error
              case MemberVersionConflict => exists id :: id in specs && VersionClash(remaining, id, specs[id].version)
              case PackSelectionConflict => exists id :: id in specs && SelectionClash(items, carried, id, specs[id].version)
              case _ => false
  {
    var added: seq<Member> := [];
    var todo := specs.Keys;
    while todo != {}
      invariant todo <= specs.Keys
      invariant multiset(added) == multiset(JoinedSoFar(pack, specs, carried, requested, remaining, todo))
      invariant |added| + |todo| == |specs|
      invariant forall id :: id in specs && id !in todo ==> NoClash(specs, items, carried, remaining, id)
      decreases todo
    {
      var id :| id in todo;
      var spec := specs[id];
      var members := remaining + added;
      JoinOne(pack, specs, carried, requested, remaining, todo, added, id);
      if exists m :: m in members && m.content == id && m.version != spec.version {
        return Failure(MemberVersionConflict);
      }
      if id !in carried && id in items && items[id].version != spec.version {
        return Failure(PackSelectionConflict);
      }
      var existingOwner := exists m :: m in members && m.content == id && m.ownsSelection;
      OwnerAmongRemaining(remaining, added, id);
      assert !VersionClash(remaining, id, spec.version) by {
        assert forall m :: m in remaining ==> m in members;
      }
      var member := Member(pack, id, spec.version, spec.enabled, id in carried || (id !in requested && !existingOwner));
      todo := todo - {id};
      added := added + [member];
    }
    return Success(remaining + added);
  }

  lemma JoinOne(pack: Id, specs: map<Id, MemberSpec>, carried: set<Id>, requested: set<Id>, remaining: seq<Member>,
                todo: set<Id>, added: seq<Member>, id: Id)
    requires todo <= specs.Keys && id in todo
    requires multiset(added) == multiset(JoinedSoFar(pack, specs, carried, requested, remaining, todo))
    ensures forall m :: m in added ==> m.content != id
    ensures multiset(added + [Joining(pack, id, specs[id], carried, requested, remaining)])
         == multiset(JoinedSoFar(pack, specs, carried, requested, remaining, todo - {id}))
  {
    forall m | m in added
      ensures m.content != id
    {
      assert m in multiset(added);
    }
    var before := JoinedSoFar(pack, specs, carried, requested, remaining, todo);
    var member := Joining(pack, id, specs[id], carried, requested, remaining);
    assert JoinedSoFar(pack, specs, carried, requested, remaining, todo - {id}) == before + {member};
    assert member !in before;
  }

  lemma OwnerAmongRemaining(remaining: seq<Member>, added: seq<Member>, id: Id)
    requires forall m :: m in added ==> m.content != id
    ensures Owned(remaining + added, id) == Owned(remaining, id)
  {
    if m :| m in remaining && m.content == id && m.ownsSelection {
      assert m in remaining + added;
    }
  }

  lemma SortedTransition(current: Lock, pack: Id, previous: Option<Id>, specs: map<Id, MemberSpec>, joined: seq<Member>)
    requires multiset(joined)
          == multiset(Remaining(current, previous, specs)) + multiset(NewMembers(current, pack, previous, specs))
    ensures IsTransition(current, pack, specs,
                         PackTransition(previous, SortBy(joined, MemberAtMost),
                                        TransitionRemovals(current, previous, specs)))
  {
    MemberAtMostIsTotal();
    SortByOrders(joined, MemberAtMost);
  }

  /** Sorts the joined memberships and applies the two size bounds. */
  method FinishTransition(current: Lock, pack: Id, previous: Option<Id>, specs: map<Id, MemberSpec>,
                          joined: seq<Member>, removals: set<Id>)
    returns (r: Result<PackTransition, MembershipError>)
    requires multiset(joined)
          == multiset(Remaining(current, previous, specs)) + multiset(NewMembers(current, pack, previous, specs))
    requires |joined| == |Remaining(current, previous, specs)| + |specs|
    requires removals == TransitionRemovals(current, previous, specs)
    ensures r.Success? ==>
              && r.value.previous == previous
              && IsTransition(current, pack, specs, r.value)
              && |Remaining(current, previous, specs)| + |specs| <= MAX_PACK_MEMBERS
              && |ResultingSelections(current, pack, previous, specs)| <= MAX_SELECTIONS
    ensures r.Failure? ==>
              || (r.error == MemberCountInvalid && |Remaining(current, previous, specs)| + |specs| > MAX_PACK_MEMBERS)
              || (r.error == SelectionCountInvalid
                  && |ResultingSelections(current, pack, previous, specs)| > MAX_SELECTIONS)
  {
    var members := SortBy(joined, MemberAtMost);
    SortedTransition(current, pack, previous, specs, joined);
    if |members| > MAX_PACK_MEMBERS {
      return Failure(MemberCountInvalid);
    }
    var resulting := (current.requested.Keys - removals) + {pack} + specs.Keys;
    if |resulting| > MAX_SELECTIONS {
      return Failure(SelectionCountInvalid);
    }
    return Success(PackTransition(previous, members, removals));
  }

  /** The transition once the pack being replaced is known. */
  method PrepareReplacement(current: Lock, pack: Id, previous: Option<Id>, specs: map<Id, MemberSpec>)
    returns (r: Result<PackTransition, MembershipError>)
    ensures r.Success? ==>
              && r.value.previous == previous
              && IsTransition(current, pack, specs, r.value)
              && TransitionAllowed(current, pack, previous, specs)
    ensures r.Failure? ==> Refusal(current, pack, previous, specs, r.error)
  {
    var remaining, removals, carried := DropPack(current.members, previous, specs.Keys);
    var joined := JoinMembers(pack, specs, current.items, carried, current.requested.Keys - removals, remaining);
    if joined.Failure? {
      return Failure(joined.error);
    }
    r := FinishTransition(current, pack, previous, specs, joined.value, removals);
  }

  method PreparePackTransition(current: Lock, pack: Id, source: Option<Source>, specs: map<Id, MemberSpec>)
    returns (r: Result<PackTransition, MembershipError>)
    ensures r.Success? ==>
              && IsPreviousPack(current.items, source, r.value.previous)
              && IsTransition(current, pack, specs, r.value)
              && TransitionAllowed(current, pack, r.value.previous, specs)
    ensures r.Failure? ==>
              exists previous :: IsPreviousPack(current.items, source, previous)
                                 && Refusal(current, pack, previous, specs, r.error)
  {
    var previous := FindPreviousPack(current.items, source);
    r := PrepareReplacement(current, pack, previous, specs);
  }

  // ----- Reconciling selections with memberships ----------------------------------------------

  /** Each member content is selected, its memberships agree on the version, and one at most owns it. */
  ghost predicate Reconcilable(requested: map<Id, Selection>, members: seq<Member>)
  {
    && Contents(members) <= requested.Keys
    && (forall m, n :: m in members && n in members && m.content == n.content ==> m.version == n.version)
    && AtMostOneOwner(members)
  }

  ghost function VersionOf(members: seq<Member>, id: Id): Version
    requires id in Contents(members)
  {
    var m :| m in members && m.content == id;
    m.version
  }

  /** A member content is on if a user left it on or an enabled pack demands it, at the packs' version. */
  ghost function ReconciledSelection(requested: map<Id, Selection>, members: seq<Member>, id: Id): Selection
    requires id in requested
  {
    if id in Contents(members) then
      Selection(Exact(VersionOf(members, id)),
                (!Owned(members, id) && requested[id].enabled) || Demanded(requested, members, id))
    else requested[id]
  }

  ghost function Reconciled(requested: map<Id, Selection>, members: seq<Member>): map<Id, Selection>
  {
    map id | id in requested :: ReconciledSelection(requested, members, id)
  }

  ghost predicate Irreconcilable(requested: map<Id, Selection>, members: seq<Member>, e: MembershipError)
  {
    match e
    case SelectionMissing => exists m :: m in members && m.content !in requested
    case MemberVersionConflict =>
      exists m, n :: m in members && n in members && m.content == n.content && m.version != n.version
    case OwnerDuplicate => !AtMostOneOwner(members)
    case _ => false
  }

  /** The memberships of one content, in order. */
  function Group(members: seq<Member>, id: Id): (r: seq<Member>)
    ensures forall m :: m in r <==> m in members && m.content == id
  {
    if members == [] then []
    else if members[0].content == id then [members[0]] + Group(members[1..], id)
    else Group(members[1..], id)
  }

  lemma {:induction false} GroupAppend(members: seq<Member>, m: Member, id: Id)
    ensures Group(members + [m], id) == Group(members, id) + if m.content == id then [m] else []
  {
    if members != [] {
      assert (members + [m])[1..] == members[1..] + [m];
      GroupAppend(members[1..], m, id);
    }
  }

  method GroupByContent(members: seq<Member>) returns (groups: map<Id, seq<Member>>)
    ensures forall id :: id in groups <==> Group(members, id) != []
    ensures forall id :: id in groups ==> groups[id] == Group(members, id)
  {
    groups := map[];
    for i := 0 to |members|
      invariant forall id :: id in groups <==> Group(members[..i], id) != []
      invariant forall id :: id in groups ==> groups[id] == Group(members[..i], id)
    {
      var m := members[i];
      ghost var before := members[..i];
      assert members[..i + 1] == before + [m];
      forall id
        ensures Group(members[..i + 1], id) == Group(before, id) + if m.content == id then [m] else []
      {
        GroupAppend(before, m, id);
      }
      groups := groups[m.content := (if m.content in groups then groups[m.content] else []) + [m]];
    }
    assert members[..|members|] == members;
  }

  function OwnerCount(members: seq<Member>): nat
  {
    if members == [] then 0
    else (if members[0].ownsSelection then 1 else 0) + OwnerCount(members[1..])
  }

  predicate TwoOwners(members: seq<Member>, i: int, j: int)
  {
    && 0 <= i < j < |members| && members[i].content == members[j].content
    && members[i].ownsSelection && members[j].ownsSelection
  }

  /** How many memberships of this content own its selection. */
  function OwnersOf(members: seq<Member>, id: Id): nat
  {
    if members == [] then 0
    else (if members[0].content == id && members[0].ownsSelection then 1 else 0) + OwnersOf(members[1..], id)
  }

  lemma {:induction false} GroupCount(members: seq<Member>, id: Id)
    ensures OwnerCount(Group(members, id)) == OwnersOf(members, id)
  {
    if members != [] {
      GroupCount(members[1..], id);
      var tail := Group(members[1..], id);
      assert ([members[0]] + tail)[1..] == tail;
    }
  }

  lemma {:induction false} SomeOwner(members: seq<Member>, id: Id) returns (i: nat)
    requires OwnersOf(members, id) > 0
    ensures i < |members| && members[i].content == id && members[i].ownsSelection
  {
    if members[0].content == id && members[0].ownsSelection {
      i := 0;
    } else {
      var k := SomeOwner(members[1..], id);
      i := k + 1;
    }
  }

  lemma {:induction false} SecondOwner(members: seq<Member>, id: Id) returns (i: nat, j: nat)
    requires OwnersOf(members, id) > 1
    ensures TwoOwners(members, i, j) && members[i].content == id
  {
    if members[0].content == id && members[0].ownsSelection {
      var l := SomeOwner(members[1..], id);
      i, j := 0, l + 1;
    } else {
      var k, l := SecondOwner(members[1..], id);
      i, j := k + 1, l + 1;
    }
  }

  lemma {:induction false} OwnerCounted(members: seq<Member>, i: nat)
    requires i < |members| && members[i].ownsSelection
    ensures OwnersOf(members, members[i].content) > 0
  {
    if i > 0 {
      assert members[i] == members[1..][i - 1];
      OwnerCounted(members[1..], i - 1);
    }
  }

  lemma {:induction false} TwoOwnersCount(members: seq<Member>, i: int, j: int)
    requires TwoOwners(members, i, j)
    ensures OwnersOf(members, members[i].content) > 1
  {
    var tail := members[1..];
    assert members[j] == tail[j - 1];
    if i > 0 {
      assert members[i] == tail[i - 1];
      TwoOwnersCount(tail, i - 1, j - 1);
    } else {
      OwnerCounted(tail, j - 1);
    }
  }

  method CountOwners(members: seq<Member>) returns (count: nat)
    ensures count == OwnerCount(members)
  {
    count := 0;
    var i := |members|;
    while i > 0
      invariant 0 <= i <= |members|
      invariant count == OwnerCount(members[i..])
    {
      i := i - 1;
      assert members[i..][1..] == members[i + 1..];
      if members[i].ownsSelection {
        count := count + 1;
      }
    }
  }

  /** What the loop decides for one content is what the specification says of it. */
  lemma OneContent(requested: map<Id, Selection>, members: seq<Member>, id: Id)
    requires Group(members, id) != [] && id in requested
    requires forall m :: m in Group(members, id) ==> m.version == Group(members, id)[0].version
    requires OwnersOf(members, id) <= 1
    ensures GroupAgrees(members, id)
    ensures id in Contents(members)
    ensures ReconciledSelection(requested, members, id)
         == Selection(Exact(Group(members, id)[0].version),
                      (OwnersOf(members, id) == 0 && requested[id].enabled)
                      || Demanded(requested, members, id))
  {
    var group := Group(members, id);
    assert group[0] in group;
    if OwnersOf(members, id) > 0 {
      var i := SomeOwner(members, id);
      assert members[i] in members;
    }
    if m :| m in members && m.content == id && m.ownsSelection {
      var i :| 0 <= i < |members| && members[i] == m;
      OwnerCounted(members, i);
    }
    if i, j :| TwoOwners(members, i, j) && members[i].content == id {
      TwoOwnersCount(members, i, j);
    }
  }

  /** The loop body of the reconciliation: one content and the memberships that list it. */
  method ReconcileContent(requested: map<Id, Selection>, packEnabled: map<Id, bool>, ghost members: seq<Member>,
                          memberships: seq<Member>, id: Id)
    returns (r: Result<Selection, MembershipError>)
    requires packEnabled == map id | id in requested :: requested[id].enabled
    requires memberships == Group(members, id) != []
    ensures r.Success? ==>
              id in requested && GroupAgrees(members, id) && r.value == ReconciledSelection(requested, members, id)
    ensures r.Failure? ==> Irreconcilable(requested, members, r.error) && !(id in requested && GroupAgrees(members, id))
  {
    assert memberships[0] in Group(members, id);
    if id !in requested {
      return Failure(SelectionMissing);
    }
    var version := memberships[0].version;
    if exists m :: m in memberships && m.version != version {
      return Failure(MemberVersionConflict);
    }
    var ownerCount := CountOwners(memberships);
    GroupCount(members, id);
    if ownerCount > 1 {
      ghost var i, j := SecondOwner(members, id);
      return Failure(OwnerDuplicate);
    }
    var manualEnabled := ownerCount == 0 && requested[id].enabled;
    var demanded := exists m :: m in memberships && m.enabledByDefault && m.pack in packEnabled && packEnabled[m.pack];
    DemandedByGroup(requested, packEnabled, members, id);
    OneContent(requested, members, id);
    return Success(Selection(Exact(version), manualEnabled || demanded));
  }

  /** Visits every content once; stops at the first whose memberships cannot be reconciled. */
  method ReconcileGroups(selections: map<Id, Selection>, ghost members: seq<Member>, groups: map<Id, seq<Member>>)
    returns (r: Result<map<Id, Selection>, MembershipError>)
    requires forall id :: id in groups ==> groups[id] == Group(members, id) != []
    ensures r.Success? ==> Settled(selections, members, groups.Keys, r.value)
    ensures r.Failure? ==>
              Irreconcilable(selections, members, r.error)
              && exists id :: id in groups && !(id in selections && GroupAgrees(members, id))
  {
    var requested := selections;
    var packEnabled := map id | id in selections :: selections[id].enabled;
    var todo := groups.Keys;
    while todo != {}
      invariant todo <= groups.Keys
      invariant Settled(selections, members, groups.Keys - todo, requested)
      decreases todo
    {
      var id :| id in todo;
      var decided := ReconcileContent(selections, packEnabled, members, groups[id], id);
      if decided.Failure? {
        return Failure(decided.error);
      }
      SettleOne(selections, members, groups.Keys - todo, requested, id, decided.value);
      requested := requested[id := decided.value];
      assert groups.Keys - (todo - {id}) == (groups.Keys - todo) + {id};
      todo := todo - {id};
    }
    assert groups.Keys - {} == groups.Keys;
    return Success(requested);
  }

  method ReconcilePackMemberSelections(selections: map<Id, Selection>, members: seq<Member>)
    returns (r: Result<map<Id, Selection>, MembershipError>)
    ensures r.Success? <==> Reconcilable(selections, members)
    ensures r.Success? ==> r.value == Reconciled(selections, members)
    ensures r.Failure? ==> Irreconcilable(selections, members, r.error)
  {
    var groups := GroupByContent(members);
    GroupsCover(members);
    r := ReconcileGroups(selections, members, groups);
    assert groups.Keys == Contents(members);
    if r.Success? {
      SettledIsReconciled(selections, members, r.value);
    } else {
      ghost var id :| id in groups && !(id in selections && GroupAgrees(members, id));
      DisagreementIsIrreconcilable(selections, members, id);
    }
  }

  lemma SettledIsReconciled(selections: map<Id, Selection>, members: seq<Member>, requested: map<Id, Selection>)
    requires Settled(selections, members, Contents(members), requested)
    ensures Reconcilable(selections, members)
    ensures requested == Reconciled(selections, members)
  {
    AgreementIsReconcilable(selections, members);
  }

  lemma DisagreementIsIrreconcilable(selections: map<Id, Selection>, members: seq<Member>, id: Id)
    requires id in Contents(members)
    requires !(id in selections && GroupAgrees(members, id))
    ensures !Reconcilable(selections, members)
  {
    AgreementIsReconcilable(selections, members);
  }

  lemma SettleOne(selections: map<Id, Selection>, members: seq<Member>, done: set<Id>,
                  requested: map<Id, Selection>, id: Id, selection: Selection)
    requires Settled(selections, members, done, requested)
    requires id in selections && GroupAgrees(members, id)
    requires selection == ReconciledSelection(selections, members, id)
    ensures Settled(selections, members, done + {id}, requested[id := selection])
  {
  }

  /** The contents in `done` have been reconciled and the rest are as they were. */
  ghost predicate Settled(selections: map<Id, Selection>, members: seq<Member>, done: set<Id>,
                          requested: map<Id, Selection>)
  {
    && requested.Keys == selections.Keys
    && (forall id :: id in done ==> id in selections && GroupAgrees(members, id))
    && (forall id :: id in selections && id in done ==> requested[id] == ReconciledSelection(selections, members, id))
    && (forall id :: id in selections && id !in done ==> requested[id] == selections[id])
  }

  lemma GroupsCover(members: seq<Member>)
    ensures forall id :: id in Contents(members) <==> Group(members, id) != []
  {
    forall id
      ensures id in Contents(members) <==> Group(members, id) != []
    {
      if id in Contents(members) {
        var m :| m in members && m.content == id;
        assert m in Group(members, id);
      } else if Group(members, id) != [] {
        assert Group(members, id)[0] in Group(members, id);
      }
    }
  }

  ghost predicate GroupAgrees(members: seq<Member>, id: Id)
  {
    && (forall m, n :: m in members && n in members && m.content == n.content == id ==> m.version == n.version)
    && (forall i, j :: TwoOwners(members, i, j) ==> members[i].content != id)
  }

  lemma DemandedByGroup(requested: map<Id, Selection>, packEnabled: map<Id, bool>, members: seq<Member>, id: Id)
    requires packEnabled == map id | id in requested :: requested[id].enabled
    ensures Demanded(requested, members, id) <==>
            exists m :: m in Group(members, id) && m.enabledByDefault && m.pack in packEnabled && packEnabled[m.pack]
  {
    if m :| m in members && m.content == id && Demands(requested, m) {
      assert m in Group(members, id);
    }
    if m :| m in Group(members, id) && m.enabledByDefault && m.pack in packEnabled && packEnabled[m.pack] {
      assert Demands(requested, m);
    }
  }

  lemma AgreementIsReconcilable(requested: map<Id, Selection>, members: seq<Member>)
    ensures (forall id :: id in Contents(members) ==> id in requested && GroupAgrees(members, id))
       <==> Reconcilable(requested, members)
  {
    if forall id :: id in Contents(members) ==> id in requested && GroupAgrees(members, id) {
      forall m, n | m in members && n in members && m.content == n.content
        ensures m.version == n.version
      {
        assert GroupAgrees(members, m.content);
      }
      forall i, j | 0 <= i < j < |members| && members[i].content == members[j].content
        ensures !(members[i].ownsSelection && members[j].ownsSelection)
      {
        assert members[i] in members;
        assert GroupAgrees(members, members[i].content);
        assert !TwoOwners(members, i, j);
      }
    }
  }
}
