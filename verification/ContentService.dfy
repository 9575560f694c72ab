/**
 * The content of one profile. Each operation reads the active lock, works out the next one and
 * commits it; a refused operation leaves the lock as it was.
 */
module ContentService {
  import opened Wrappers
  import opened ContentModel
  import opened PackMembership
  import opened PackOperations
  import opened PackOwnership
  import opened PackInstallation
  import opened PackLifecycle
  import opened PackLaws
  import opened LockValidation
  import opened PackMeaning

  datatype ServiceError =
    | NotInstalled
    | RequiredDependency
    | RequiredByPack
    | MemberCannotRemove
    | AlreadyInstalled
    | VersionConflict
    | KindInvalid
    | Transition(reason: MembershipError)
    | Unresolvable
    | LockInvalid

  /** Resolution of selections against a catalog, which may fail. */
  type Resolver = (map<Id, Selection>, set<Release>) -> Option<map<Id, Item>>

  ghost predicate Sound(resolver: Resolver)
  {
    forall requested, catalog :: resolver(requested, catalog).Some? ==>
      Resolution(catalog, requested, resolver(requested, catalog).value)
  }

  /** Memberships whose pack and content are both still items. */
  function Surviving(members: seq<Member>, items: map<Id, Item>): (r: seq<Member>)
    ensures (forall m :: m in members ==> m.pack in items && m.content in items) ==> r == members
  {
    if members == [] then []
    else if members[0].pack in items && members[0].content in items then [members[0]] + Surviving(members[1..], items)
    else Surviving(members[1..], items)
  }

  method Disown(members: seq<Member>, id: Id) returns (r: seq<Member>)
    ensures r == Disowned(members, id)
  {
    r := members;
    for i := 0 to |members|
      invariant |r| == |members|
      invariant forall j :: 0 <= j < |members| ==> r[j] == if j < i then Disowned(members, id)[j] else members[j]
    {
      if r[i].content == id {
        r := r[i := r[i].(ownsSelection := false)];
      }
    }
  }

  /** The pack first, then its files; a selection that is already there keeps its switch. */
  method MergeSelections(base: map<Id, Selection>, pack: PackInput) returns (r: map<Id, Selection>)
    ensures r == Merged(base, pack)
  {
    r := base[pack.id := Selection(Exact(pack.version), true)];
    var todo := pack.files.Keys;
    while todo != {}
      invariant todo <= pack.files.Keys
      invariant r.Keys == base.Keys + {pack.id} + (pack.files.Keys - todo)
      invariant forall id :: id in r && id in pack.files && id !in todo ==> r[id] == MergedSelection(base, pack, id)
      invariant forall id :: id in r && id in todo ==>
                  r[id] == if id == pack.id then Selection(Exact(pack.version), true) else base[id]
      invariant forall id :: id in r && id !in pack.files ==> r[id] == MergedSelection(base, pack, id)
      decreases todo
    {
      var id :| id in todo;
      var file := pack.files[id];
      todo := todo - {id};
      if id != pack.id && id in r {
        r := r[id := r[id].(version := Exact(file.version))];
      } else {
        r := r[id := Selection(Exact(file.version), file.enabled)];
      }
    }
  }

  /**
   * Resolves the selections. If the current memberships are to be preserved, those still bound are
   * kept and the lock is validated with them; otherwise it has none yet.
   */
  method ResolveNext(current: Lock, requested: map<Id, Selection>, added: set<Release>, preserve: bool, resolver: Resolver)
    returns (r: Result<Lock, ServiceError>)
    requires Sound(resolver)
    ensures r.Success? ==>
              && r.value.requested == requested
              && r.value.members == (if preserve then Preserved(current.members, r.value.items) else [])
              && Resolution(Catalog(current.items, added), requested, r.value.items)
              && (preserve ==> ValidMembers(r.value))
    ensures r == Failure(Unresolvable) <==> resolver(requested, Catalog(current.items, added)).None?
    ensures r.Failure? ==> r.error.Unresolvable? || (preserve && r.error.LockInvalid?)
    ensures r.Success? ==> resolver(requested, Catalog(current.items, added)) == Some(r.value.items)
    ensures r == Failure(LockInvalid) ==>
              && preserve && resolver(requested, Catalog(current.items, added)).Some?
              && var items := resolver(requested, Catalog(current.items, added)).value;
                 !ValidMembers(Lock(requested, items, Preserved(current.members, items)))
  {
    var items := resolver(requested, Catalog(current.items, added));
    if items.None? {
      return Failure(Unresolvable);
    }
    var next := Lock(requested, items.value, if preserve then Preserved(current.members, items.value) else []);
    if preserve && !ValidMembers(next) {
      return Failure(LockInvalid);
    }
    return Success(next);
  }

  /** Gives a resolved lock its memberships and validates it. */
  method Rebind(next: Lock, members: seq<Member>) returns (r: Result<Lock, ServiceError>)
    ensures r.Success? <==> ValidMembers(next.(members := members))
    ensures r.Success? ==> r.value == next.(members := members)
    ensures r.Failure? ==> r.error.LockInvalid?
  {
    var bound := next.(members := members);
    if !ValidMembers(bound) {
      return Failure(LockInvalid);
    }
    return Success(bound);
  }

  /** The resolver answered with a content off that one of these memberships wants on. */
  ghost predicate LeftOff(resolver: Resolver, catalog: set<Release>, members: seq<Member>)
  {
    exists requested :: resolver(requested, catalog).Some? && Unserved(members, resolver(requested, catalog).value)
  }

  // ----- Switching ------------------------------------------------------------------------------------

  ghost predicate ToggleRefused(current: Lock, id: Id, enabled: bool, e: ServiceError)
  {
    match e
    case NotInstalled => id !in current.items
    case RequiredDependency => id in current.items && !enabled && RequiredByEnabledItem(current.items, id)
    case RequiredByPack =>
      id in current.items && !enabled && Claims(current, id) && Demanded(current.requested, current.members, id)
    case _ => false
  }

  /** Each refusal of a switch for its own reason, told by items, dependencies and memberships; the first one counts. */
  ghost predicate SwitchRefusals(current: Lock, id: Id, enabled: bool, r: Option<ServiceError>)
  {
    && (r == Some(NotInstalled) <==> id !in current.items)
    && (r == Some(RequiredDependency) <==> id in current.items && !enabled && Needed(current.items, id))
    && (r == Some(RequiredByPack) <==>
          && id in current.items && !enabled && !Needed(current.items, id)
          && current.items[id].kind != Modpack && WantedOn(current.requested, current.members, id))
  }

  function ErrorOf<T>(r: Result<T, ServiceError>): Option<ServiceError>
  {
    match r
    case Success(_) => None
    case Failure(error) => Some(error)
  }

  /** The guards of a switch, and the memberships once the user has claimed the content. */
  method ClaimMembers(current: Lock, id: Id, enabled: bool) returns (r: Result<seq<Member>, ServiceError>)
    ensures r.Success? <==> ToggleAllowed(current, id, enabled)
    ensures r.Success? ==> r.value == ClaimedMembers(current, id)
    ensures r.Failure? ==> ToggleRefused(current, id, enabled, r.error)
    ensures SwitchRefusals(current, id, enabled, ErrorOf(r))
  {
    NeededMeans(current.items, id);
    WantedIsDemanded(current.requested, current.members, id);
    if id !in current.items {
      return Failure(NotInstalled);
    }
    if !enabled && RequiredByEnabledItem(current.items, id) {
      return Failure(RequiredDependency);
    }
    var members := current.members;
    if current.items[id].kind != Modpack && exists m :: m in members && m.content == id {
      if !enabled && exists m :: m in members && m.content == id && Demands(current.requested, m) {
        return Failure(RequiredByPack);
      }
      members := Disown(members, id);
    }
    return Success(members);
  }

  method PlanToggle(current: Lock, ghost manual: set<Id>, id: Id, enabled: bool, resolver: Resolver)
    returns (r: Result<Lock, ServiceError>)
    requires Inv(State(current, manual)) && Sound(resolver)
    ensures r.Success? ==> Toggled(current, id, enabled, r.value)
    ensures r.Failure? ==>
              || ToggleRefused(current, id, enabled, r.error)
              || (ToggleAllowed(current, id, enabled) && (r.error.Unresolvable? || r.error.LockInvalid?))
    ensures SwitchRefusals(current, id, enabled, ErrorOf(r))
    ensures r == Failure(LockInvalid) ==> LeftOff(resolver, Catalog(current.items, {}), current.members)
  {
    var claimed := ClaimMembers(current, id, enabled);
    if claimed.Failure? {
      return Failure(claimed.error);
    }
    var members := claimed.value;
    ToggleReconciles(State(current, manual), id, enabled);
    var reconciled := ReconcilePackMemberSelections(Switched(current, id, enabled), members);
    ghost var answer := resolver(reconciled.value, Catalog(current.items, {}));
    if answer.Some? {
      SwitchValid(State(current, manual), id, enabled, answer.value);
      SwitchPreserves(State(current, manual), id, enabled, answer.value);
    }
    var next := ResolveNext(current, reconciled.value, {}, true, resolver);
    if next.Failure? {
      return next;
    }
    r := Rebind(next.value, members);
  }

  // ----- Removing ---------------------------------------------------------------------------------------

  ghost predicate RemovalRefused(current: Lock, id: Id, e: ServiceError)
  {
    match e
    case NotInstalled => id !in current.items
    case RequiredDependency => id in current.items && RequiredByEnabledItem(current.items, id)
    case MemberCannotRemove => id in current.items && Claims(current, id)
    case _ => false
  }

  /** Likewise for a removal. */
  ghost predicate RemovalRefusals(current: Lock, id: Id, r: Option<ServiceError>)
  {
    && (r == Some(NotInstalled) <==> id !in current.items)
    && (r == Some(RequiredDependency) <==> id in current.items && Needed(current.items, id))
    && (r == Some(MemberCannotRemove) <==>
          && id in current.items && !Needed(current.items, id)
          && current.items[id].kind != Modpack && ListedIn(current.members, id))
  }

  /** The guards of a removal, the memberships that stay and the selections that go. */
  method DropMembers(current: Lock, id: Id) returns (r: Result<(seq<Member>, set<Id>), ServiceError>)
    ensures r.Success? <==> RemovalAllowed(current, id)
    ensures r.Success? ==> r.value == (MembersAfterRemoval(current, id), RemovalTargets(current, id))
    ensures r.Failure? ==> RemovalRefused(current, id, r.error)
    ensures RemovalRefusals(current, id, ErrorOf(r))
  {
    NeededMeans(current.items, id);
    if id !in current.items {
      return Failure(NotInstalled);
    }
    if RequiredByEnabledItem(current.items, id) {
      return Failure(RequiredDependency);
    }
    if current.items[id].kind != Modpack && exists m :: m in current.members && m.content == id {
      return Failure(MemberCannotRemove);
    }
    if current.items[id].kind == Modpack {
      var members, removals, _ := DropPack(current.members, Some(id), {});
      return Success((members, removals));
    }
    return Success((current.members, {id}));
  }

  /** The resolver keeps the removed pack among the items. */
  ghost predicate Lingers(resolver: Resolver, current: Lock, id: Id)
  {
    && id in current.items && current.items[id].kind == Modpack
    && exists requested :: resolver(requested, Catalog(current.items, {})).Some?
                           && id in resolver(requested, Catalog(current.items, {})).value
  }

  method PlanRemoval(current: Lock, ghost manual: set<Id>, id: Id, resolver: Resolver)
    returns (r: Result<Lock, ServiceError>)
    requires Inv(State(current, manual)) && Sound(resolver)
    ensures r.Success? ==> Removed(current, id, r.value)
    ensures r.Failure? ==>
              || RemovalRefused(current, id, r.error)
              || (RemovalAllowed(current, id) && (r.error.Unresolvable? || r.error.LockInvalid?))
    ensures RemovalRefusals(current, id, ErrorOf(r))
    ensures r == Failure(LockInvalid) ==>
              LeftOff(resolver, Catalog(current.items, {}), current.members) || Lingers(resolver, current, id)
  {
    var dropped := DropMembers(current, id);
    if dropped.Failure? {
      return Failure(dropped.error);
    }
    var (members, removals) := dropped.value;
    RemovalReconciles(State(current, manual), id);
    var reconciled := ReconcilePackMemberSelections(Without(current.requested, removals), members);
    if reconciled.value == map[] {
      return Success(Lock(map[], map[], members));
    }
    ghost var answer := resolver(reconciled.value, Catalog(current.items, {}));
    if answer.Some? && !(current.items[id].kind == Modpack && id in answer.value) {
      RemovalInvalid(State(current, manual), id, answer.value);
    }
    var next := ResolveNext(current, reconciled.value, {}, true, resolver);
    if next.Failure? {
      return next;
    }
    RemovalStaysInItems(State(current, manual), id, next.value.requested, next.value.items);
    r := Rebind(next.value, Surviving(members, next.value.items));
  }

  // ----- Installing a pack -------------------------------------------------------------------------------

  /** The resolver left off what the new memberships want on, or another pack of this identifier lists a file. */
  ghost predicate PackInvalid(resolver: Resolver, current: Lock, pack: PackInput)
  {
    exists previous, members :: TransitionedTo(current, pack, previous, members)
                                && (LeftOff(resolver, Catalog(current.items, PackReleases(pack)), members)
                                    || ListedTwice(current, pack, previous))
  }

  lemma WhyPackInvalid(s: State, pack: PackInput, previous: Option<Id>, next: Lock, resolver: Resolver)
    requires Inv(s) && WellFormedPack(pack) && TransitionedTo(s.lock, pack, previous, next.members)
    requires next.requested == Reconciled(MergedAfter(s.lock, pack, previous), next.members)
    requires resolver(next.requested, Catalog(s.lock.items, PackReleases(pack))) == Some(next.items) && Sound(resolver)
    ensures !ValidMembers(next) ==> PackInvalid(resolver, s.lock, pack)
  {
    PackValid(s, pack, previous, next);
    if Unserved(next.members, next.items) {
      assert LeftOff(resolver, Catalog(s.lock.items, PackReleases(pack)), next.members);
    }
  }

  method PlanPack(current: Lock, ghost manual: set<Id>, pack: PackInput, resolver: Resolver)
    returns (r: Result<(Lock, Option<Id>), ServiceError>)
    requires Inv(State(current, manual)) && Sound(resolver)
    ensures r.Success? ==> PackInstalled(current, pack, r.value.1, r.value.0)
    ensures r.Failure? ==>
              match r.error
              case AlreadyInstalled => pack.source.Local? && pack.id in current.items
              case Transition(reason) =>
                exists previous :: IsPreviousPack(current.items, Some(pack.source), previous)
                                   && Refusal(current, pack.id, previous, MemberSpecs(pack), reason)
              case e => e.Unresolvable? || e.LockInvalid?
    ensures r == Failure(AlreadyInstalled) <==> pack.source.Local? && pack.id in current.items
    ensures r == Failure(LockInvalid) && WellFormedPack(pack) ==> PackInvalid(resolver, current, pack)
  {
    if pack.source.Local? && pack.id in current.items {
      return Failure(AlreadyInstalled);
    }
    var transition := PreparePackTransition(current, pack.id, Some(pack.source), MemberSpecs(pack));
    if transition.Failure? {
      return Failure(Transition(transition.error));
    }
    var t := transition.value;
    var merged := MergeSelections(Without(current.requested, t.removals), pack);
    TransitionReconciles(State(current, manual), pack, t.previous, t.members);
    var reconciled := ReconcilePackMemberSelections(merged, t.members);
    var next := ResolveNext(current, reconciled.value, PackReleases(pack), false, resolver);
    if next.Failure? {
      return Failure(next.error);
    }
    TransitionStaysInItems(State(current, manual), pack, t.previous, t.members, next.value.requested, next.value.items);
    if WellFormedPack(pack) {
      WhyPackInvalid(State(current, manual), pack, t.previous, Lock(reconciled.value, next.value.items, t.members), resolver);
    }
    var bound := Rebind(next.value, Surviving(t.members, next.value.items));
    if bound.Failure? {
      return Failure(bound.error);
    }
    return Success((bound.value, t.previous));
  }

  // ----- Installing one content ---------------------------------------------------------------------------

  /** An item is installed from this project's release. */
  predicate ThereAs(items: map<Id, Item>, id: Id, project: Id, release: Version)
  {
    id in items && items[id].source == Some(Modrinth(project, release))
  }

  lemma InstalledMeans(items: map<Id, Item>, version: Version)
    ensures VersionInstalled(items, version) <==> exists id, project :: ThereAs(items, id, project, version)
  {
    if id :| id in items && items[id].source.Some? && items[id].source.value.Modrinth?
             && items[id].source.value.release == version {
      assert ThereAs(items, id, items[id].source.value.project, version);
    }
  }

  function ContentCatalog(current: Lock, id: Id, version: Version, kind: Kind, source: Source, extra: set<Release>): set<Release>
  {
    Catalog(current.items, extra + {Release(id, version, kind, Some(source))})
  }

  lemma WhyContentInvalid(s: State, id: Id, version: Version, kind: Kind, source: Source, extra: set<Release>,
                          items: map<Id, Item>, resolver: Resolver)
    requires Inv(s) && Sound(resolver) && ContentGuards(s.lock, id, version, kind, source)
    requires resolver(ContentLock(s.lock, id, version, items).requested,
                      ContentCatalog(s.lock, id, version, kind, source, extra)) == Some(items)
    ensures Preserved(s.lock.members, items) == s.lock.members
    ensures !ValidMembers(ContentLock(s.lock, id, version, items)) ==>
              LeftOff(resolver, ContentCatalog(s.lock, id, version, kind, source, extra), s.lock.members)
              || ListedIn(s.lock.members, id)
  {
    ContentStaysBound(s, id, extra + {Release(id, version, kind, Some(source))}, ContentLock(s.lock, id, version, items));
    ContentValid(s, id, version, kind, source, extra, items);
  }

  method PlanContent(current: Lock, ghost manual: set<Id>, id: Id, version: Version, kind: Kind, source: Source,
                     extra: set<Release>, resolver: Resolver)
    returns (r: Result<Lock, ServiceError>)
    requires Inv(State(current, manual)) && Sound(resolver)
    requires source.Modrinth? ==> source == Modrinth(id, version)
    ensures r.Success? ==> ContentInstalled(current, id, version, kind, source, extra, r.value)
    ensures r.Failure? ==>
              match r.error
              case KindInvalid => kind == Modpack
              case AlreadyInstalled => source.Modrinth? && VersionInstalled(current.items, version)
              case VersionConflict =>
                source.Modrinth? && exists m :: m in current.members && m.content == id && m.version != version
              case e => e.Unresolvable? || e.LockInvalid?
    ensures r == Failure(KindInvalid) <==> kind == Modpack
    ensures r == Failure(LockInvalid) ==>
              LeftOff(resolver, ContentCatalog(current, id, version, kind, source, extra), current.members)
              || ListedIn(current.members, id)
    ensures r == Failure(AlreadyInstalled) <==>
            kind != Modpack && source.Modrinth? && exists other, project :: ThereAs(current.items, other, project, version)
  {
    InstalledMeans(current.items, version);
    if kind == Modpack {
      return Failure(KindInvalid);
    }
    if source.Modrinth? {
      if VersionInstalled(current.items, version) {
        return Failure(AlreadyInstalled);
      }
      if exists m :: m in current.members && m.content == id && m.version != version {
        return Failure(VersionConflict);
      }
    }
    var requested := current.requested[id := Selection(Exact(version), true)];
    ghost var added := extra + {Release(id, version, kind, Some(source))};
    ghost var answer := resolver(requested, Catalog(current.items, added));
    if answer.Some? {
      WhyContentInvalid(State(current, manual), id, version, kind, source, extra, answer.value, resolver);
    }
    r := ResolveNext(current, requested, extra + {Release(id, version, kind, Some(source))}, true, resolver);
  }

  // ----- The profile ----------------------------------------------------------------------------------------

  class Profile {
    var lock: Lock
    ghost var manual: set<Id>

    ghost predicate Valid()
      reads this
    {
      Inv(State(lock, manual))
    }

    constructor ()
      ensures Valid() && lock == EMPTY_LOCK && manual == {}
    {
      lock, manual := EMPTY_LOCK, {};
      new;
      EmptyProfileInv();
    }

    /** Makes `next` the active lock. */
    method Commit(next: Lock, ghost op: Operation)
      requires Valid() && Performs(lock, op, next)
      modifies this
      ensures Valid()
      ensures lock == next && manual == NextManual(State(old(lock), old(manual)), op)
    {
      ghost var before := State(lock, manual);
      lock := next;
      manual := NextManual(before, op);
      StepKeepsInv(before, op, State(lock, manual));
    }

    method SetEnabled(id: Id, enabled: bool, resolver: Resolver) returns (r: Result<(), ServiceError>)
      requires Valid() && Sound(resolver)
      modifies this
      ensures Valid()
      ensures r.Success? ==> Toggled(old(lock), id, enabled, lock)
      ensures r.Success? ==> id in lock.requested && lock.requested[id].enabled == enabled
      ensures manual == if r.Success? then NextManual(State(old(lock), old(manual)), Operation.SetEnabled(id, enabled))
                        else old(manual)
      ensures r.Failure? ==>
                && lock == old(lock)
                && (ToggleRefused(lock, id, enabled, r.error) || r.error.Unresolvable? || r.error.LockInvalid?)
      ensures SwitchRefusals(old(lock), id, enabled, ErrorOf(r))
    {
      var plan := PlanToggle(lock, manual, id, enabled, resolver);
      if plan.Failure? {
        return Failure(plan.error);
      }
      SwitchTakesEffect(State(lock, manual), id, enabled, plan.value);
      Commit(plan.value, Operation.SetEnabled(id, enabled));
      return Success(());
    }

    method Remove(id: Id, resolver: Resolver) returns (r: Result<(), ServiceError>)
      requires Valid() && Sound(resolver)
      modifies this
      ensures Valid()
      ensures r.Success? ==> Removed(old(lock), id, lock)
      ensures manual == if r.Success? then old(manual) - {id} else old(manual)
      ensures r.Failure? ==>
                && lock == old(lock)
                && (RemovalRefused(lock, id, r.error) || r.error.Unresolvable? || r.error.LockInvalid?)
      ensures RemovalRefusals(old(lock), id, ErrorOf(r))
    {
      var plan := PlanRemoval(lock, manual, id, resolver);
      if plan.Failure? {
        return Failure(plan.error);
      }
      Commit(plan.value, Operation.Remove(id));
      return Success(());
    }

    /** The selection logic of a pack import; the pack's bytes are checked and stored elsewhere. */
    method InstallPack(pack: PackInput, resolver: Resolver) returns (r: Result<(), ServiceError>)
      requires Valid() && Sound(resolver) && WellFormedPack(pack)
      modifies this
      ensures Valid() && manual == old(manual)
      ensures r.Success? ==> exists previous :: PackInstalled(old(lock), pack, previous, lock)
      ensures r.Failure? ==> lock == old(lock)
    {
      var plan := PlanPack(lock, manual, pack, resolver);
      if plan.Failure? {
        return Failure(plan.error);
      }
      var (next, previous) := plan.value;
      Commit(next, Operation.InstallPack(pack, previous));
      return Success(());
    }

    /** Selects one project or local file together with the releases its graph brought in. */
    method InstallContent(id: Id, version: Version, kind: Kind, source: Source, extra: set<Release>, resolver: Resolver)
      returns (r: Result<(), ServiceError>)
      requires Valid() && Sound(resolver)
      requires source.Modrinth? ==> source == Modrinth(id, version)
      modifies this
      ensures Valid()
      ensures r.Success? ==> ContentInstalled(old(lock), id, version, kind, source, extra, lock)
      ensures manual == if r.Success? then old(manual) + {id} else old(manual)
      ensures r.Failure? ==> lock == old(lock)
    {
      var plan := PlanContent(lock, manual, id, version, kind, source, extra, resolver);
      if plan.Failure? {
        return Failure(plan.error);
      }
      Commit(plan.value, Operation.InstallContent(id, version, kind, source, extra));
      return Success(());
    }
  }

  // ----- No membership is filtered away by the resolution ---------------------------------------------

  lemma RemovalStaysInItems(s: State, id: Id, requested: map<Id, Selection>, items: map<Id, Item>)
    requires Inv(s) && RemovalAllowed(s.lock, id)
    requires requested == Reconciled(Without(s.lock.requested, RemovalTargets(s.lock, id)), MembersAfterRemoval(s.lock, id))
    requires forall key :: key in requested ==> key in items
    ensures Surviving(MembersAfterRemoval(s.lock, id), items) == MembersAfterRemoval(s.lock, id)
  {
    ReconciledKeys(Without(s.lock.requested, RemovalTargets(s.lock, id)), MembersAfterRemoval(s.lock, id));
    RemovalInItems(s, id, requested, items);
  }

  lemma RemovalInItems(s: State, id: Id, requested: map<Id, Selection>, items: map<Id, Item>)
    requires Inv(s) && RemovalAllowed(s.lock, id)
    requires requested.Keys == Without(s.lock.requested, RemovalTargets(s.lock, id)).Keys
    requires forall key :: key in requested ==> key in items
    ensures forall m :: m in MembersAfterRemoval(s.lock, id) ==> m.pack in items && m.content in items
  {
    forall m | m in MembersAfterRemoval(s.lock, id)
      ensures m.pack in items && m.content in items
    {
      var k := RemovalOf(s, id, m);
    }
  }

  lemma TransitionStaysInItems(s: State, pack: PackInput, previous: Option<Id>, members: seq<Member>,
                               requested: map<Id, Selection>, items: map<Id, Item>)
    requires Inv(s) && TransitionedTo(s.lock, pack, previous, members)
    requires requested == Reconciled(MergedAfter(s.lock, pack, previous), members)
    requires forall key :: key in requested ==> key in items
    ensures Surviving(members, items) == members
  {
    ReconciledKeys(MergedAfter(s.lock, pack, previous), members);
    TransitionInItems(s, pack, previous, members, requested, items);
  }

  lemma TransitionInItems(s: State, pack: PackInput, previous: Option<Id>, members: seq<Member>,
                          requested: map<Id, Selection>, items: map<Id, Item>)
    requires Inv(s) && TransitionedTo(s.lock, pack, previous, members)
    requires requested.Keys == MergedAfter(s.lock, pack, previous).Keys
    requires forall key :: key in requested ==> key in items
    ensures forall m :: m in members ==> m.pack in items && m.content in items
  {
    TransitionElements(s.lock, pack, previous, members);
    TransitionReconciles(s, pack, previous, members);
    forall m | m in members
      ensures m.pack in MergedAfter(s.lock, pack, previous)
    {
      if m in Remaining(s.lock, previous, MemberSpecs(pack)) {
        RemainingStays(s, pack, previous, m);
      }
    }
  }

  lemma ContentStaysBound(s: State, id: Id, added: set<Release>, post: Lock)
    requires Inv(s) && post.requested.Keys == s.lock.requested.Keys + {id}
    requires Resolution(Catalog(s.lock.items, added), post.requested, post.items)
    ensures Preserved(s.lock.members, post.items) == s.lock.members
  {
    forall m | m in s.lock.members
      ensures StillBound(m, post.items)
    {
      assert Bound(s.lock, m);
      ResolutionKeeps(s.lock, added, post, m.pack);
    }
  }
}
