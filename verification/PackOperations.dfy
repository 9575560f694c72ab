/** The four operations on a profile's content, as relations between the lock before and after. */
module PackOperations {
  import opened Wrappers
  import opened ContentModel
  import opened PackMembership

  datatype PackFile = PackFile(version: Version, kind: Kind, enabled: bool)

  /** A modpack with the files its index lists for the client. */
  datatype PackInput = PackInput(id: Id, version: Version, source: Source, files: map<Id, PackFile>)

  /** Index files are mods, resource packs or shader packs. */
  predicate WellFormedPack(pack: PackInput)
  {
    forall id :: id in pack.files ==> pack.files[id].kind != Modpack
  }

  function MemberSpecs(pack: PackInput): map<Id, MemberSpec>
  {
    map id | id in pack.files :: MemberSpec(pack.files[id].version, pack.files[id].enabled)
  }

  function PackReleases(pack: PackInput): set<Release>
  {
    {Release(pack.id, pack.version, Modpack, Some(pack.source))}
    + set id | id in pack.files :: FileRelease(id, pack.files[id])
  }

  function FileRelease(id: Id, file: PackFile): Release
  {
    Release(id, file.version, file.kind, Some(Modrinth(id, file.version)))
  }

  function Without(requested: map<Id, Selection>, removals: set<Id>): map<Id, Selection>
  {
    map id | id in requested && id !in removals :: requested[id]
  }

  /** The pack is switched on; a file already selected keeps its switch and takes the pack's version. */
  function MergedSelection(base: map<Id, Selection>, pack: PackInput, id: Id): Selection
    requires id in base || id == pack.id || id in pack.files
  {
    if id in pack.files then
      Selection(Exact(pack.files[id].version),
                if id != pack.id && id in base then base[id].enabled else pack.files[id].enabled)
    else if id == pack.id then Selection(Exact(pack.version), true)
    else base[id]
  }

  function Merged(base: map<Id, Selection>, pack: PackInput): map<Id, Selection>
  {
    map id | id in base.Keys + {pack.id} + pack.files.Keys :: MergedSelection(base, pack, id)
  }

  function MergedAfter(pre: Lock, pack: PackInput, previous: Option<Id>): map<Id, Selection>
  {
    Merged(Without(pre.requested, TransitionRemovals(pre, previous, MemberSpecs(pack))), pack)
  }

  ghost predicate TransitionedTo(pre: Lock, pack: PackInput, previous: Option<Id>, members: seq<Member>)
  {
    && IsPreviousPack(pre.items, Some(pack.source), previous)
    && IsTransition(pre, pack.id, MemberSpecs(pack),
                    PackTransition(previous, members, TransitionRemovals(pre, previous, MemberSpecs(pack))))
    && TransitionAllowed(pre, pack.id, previous, MemberSpecs(pack))
  }

  /** Installing a pack, or replacing the installed pack of the same project. */
  ghost predicate PackInstalled(pre: Lock, pack: PackInput, previous: Option<Id>, post: Lock)
  {
    && (pack.source.Local? ==> pack.id !in pre.items)
    && TransitionedTo(pre, pack, previous, post.members)
    && post.requested == Reconciled(MergedAfter(pre, pack, previous), post.members)
    && Resolution(Catalog(pre.items, PackReleases(pack)), post.requested, post.items)
    && ValidMembers(post)
  }

  /** Some installed item already is this Modrinth version. */
  predicate VersionInstalled(items: map<Id, Item>, version: Version)
  {
    exists id :: id in items && items[id].source.Some? && items[id].source.value.Modrinth?
                 && items[id].source.value.release == version
  }

  /** Installing a single project with its dependency releases, or adding a local file. */
  ghost predicate ContentInstalled(pre: Lock, id: Id, version: Version, kind: Kind, source: Source,
                                   extra: set<Release>, post: Lock)
  {
    && kind != Modpack
    && (source.Modrinth? ==>
         && source == Modrinth(id, version)
         && !VersionInstalled(pre.items, version)
         && !exists m :: m in pre.members && m.content == id && m.version != version)
    && post.members == pre.members
    && post.requested == pre.requested[id := Selection(Exact(version), true)]
    && Resolution(Catalog(pre.items, extra + {Release(id, version, kind, Some(source))}), post.requested, post.items)
    && ValidMembers(post)
  }

  /** Direct user action turns every membership of this content into a non-owner. */
  function Disowned(members: seq<Member>, id: Id): (r: seq<Member>)
    ensures |r| == |members|
  {
    seq(|members|, i requires 0 <= i < |members| =>
      if members[i].content == id then members[i].(ownsSelection := false) else members[i])
  }

  predicate Claims(lock: Lock, id: Id)
    requires id in lock.items
  {
    lock.items[id].kind != Modpack && id in Contents(lock.members)
  }

  function ClaimedMembers(lock: Lock, id: Id): seq<Member>
    requires id in lock.items
  {
    if Claims(lock, id) then Disowned(lock.members, id) else lock.members
  }

  function Switched(lock: Lock, id: Id, enabled: bool): map<Id, Selection>
    requires id in lock.items
  {
    lock.requested[id := if id in lock.requested then lock.requested[id].(enabled := enabled)
                         else Selection(Exact(lock.items[id].version), enabled)]
  }

  ghost predicate ToggleAllowed(pre: Lock, id: Id, enabled: bool)
  {
    && id in pre.items
    && !(!enabled && RequiredByEnabledItem(pre.items, id))
    && !(!enabled && Claims(pre, id) && Demanded(pre.requested, pre.members, id))
  }

  ghost predicate Toggled(pre: Lock, id: Id, enabled: bool, post: Lock)
  {
    && ToggleAllowed(pre, id, enabled)
    && post.members == ClaimedMembers(pre, id)
    && post.requested == Reconciled(Switched(pre, id, enabled), post.members)
    && Resolution(Catalog(pre.items, {}), post.requested, post.items)
    && ValidMembers(post)
  }

  ghost predicate RemovalAllowed(pre: Lock, id: Id)
  {
    && id in pre.items
    && !RequiredByEnabledItem(pre.items, id)
    && !Claims(pre, id)
  }

  function RemovalTargets(lock: Lock, id: Id): set<Id>
    requires id in lock.items
  {
    if lock.items[id].kind == Modpack then Removals(lock.members, Some(id), {}) else {id}
  }

  function MembersAfterRemoval(lock: Lock, id: Id): seq<Member>
    requires id in lock.items
  {
    if lock.items[id].kind == Modpack
    then Heirs(Keep(lock.members, Some(id)), Orphans(lock.members, Some(id), {}))
    else lock.members
  }

  ghost predicate Removed(pre: Lock, id: Id, post: Lock)
  {
    && RemovalAllowed(pre, id)
    && post.members == MembersAfterRemoval(pre, id)
    && post.requested == Reconciled(Without(pre.requested, RemovalTargets(pre, id)), post.members)
    && (post.requested == map[] ==> post.items == map[])
    && (post.requested != map[] ==>
         && Resolution(Catalog(pre.items, {}), post.requested, post.items)
         && ValidMembers(post))
  }

  datatype Operation =
    | InstallPack(pack: PackInput, previous: Option<Id>)
    | InstallContent(id: Id, version: Version, kind: Kind, source: Source, extra: set<Release>)
    | SetEnabled(id: Id, enabled: bool)
    | Remove(id: Id)

  ghost predicate Performs(pre: Lock, op: Operation, post: Lock)
  {
    match op
    case InstallPack(pack, previous) => WellFormedPack(pack) && PackInstalled(pre, pack, previous, post)
    case InstallContent(id, version, kind, source, extra) =>
      ContentInstalled(pre, id, version, kind, source, extra, post)
    case SetEnabled(id, enabled) => Toggled(pre, id, enabled, post)
    case Remove(id) => Removed(pre, id, post)
  }
}
