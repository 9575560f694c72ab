/** The resolved content lock of a profile: selections, resolved items and pack memberships. */
module ContentModel {
  import opened Wrappers
  import opened Ordering

  type Id = string
  type Version = string

  datatype Kind = Mod | Modpack | ShaderPack | ResourcePack

  datatype Requirement = Any | Exact(version: Version) | OneOf(versions: seq<Version>)

  datatype Selection = Selection(version: Requirement, enabled: bool)

  datatype Source = Modrinth(project: Id, release: Version) | Local

  datatype DependencyKind = Required | Optional | Incompatible

  /** `resolved` records that the resolver bound the dependency to an enabled item. */
  datatype Dependency = Dependency(content: Id, kind: DependencyKind, resolved: bool)

  datatype Item = Item(version: Version, kind: Kind, enabled: bool, source: Option<Source>,
                       dependencies: seq<Dependency>)

  datatype Member = Member(pack: Id, content: Id, version: Version, enabledByDefault: bool, ownsSelection: bool)

  /** A profile without content is the lock with nothing in it. */
  datatype Lock = Lock(requested: map<Id, Selection>, items: map<Id, Item>, members: seq<Member>)

  const EMPTY_LOCK := Lock(map[], map[], [])

  datatype Release = Release(id: Id, version: Version, kind: Kind, source: Option<Source>)

  predicate Matches(requirement: Requirement, version: Version)
  {
    match requirement
    case Any => true
    case Exact(expected) => expected == version
    case OneOf(versions) => version in versions
  }

  /** Members are kept in the order of (pack, content). */
  predicate MemberAtMost(m: Member, n: Member)
  {
    Below(m.pack, n.pack) || (m.pack == n.pack && AtMost(m.content, n.content))
  }

  predicate StrictlyOrdered(members: seq<Member>)
  {
    forall i, j :: 0 <= i < j < |members| ==>
      MemberAtMost(members[i], members[j]) && !SameMembership(members[i], members[j])
  }

  predicate SameMembership(m: Member, n: Member)
  {
    m.pack == n.pack && m.content == n.content
  }

  lemma MemberAtMostIsTotal()
    ensures TotalPreorder(MemberAtMost)
  {
    forall m, n
      ensures MemberAtMost(m, n) || MemberAtMost(n, m)
    {
      AtMostTotal(m.pack, n.pack);
      AtMostTotal(m.content, n.content);
    }
    forall m, n, o | MemberAtMost(m, n) && MemberAtMost(n, o)
      ensures MemberAtMost(m, o)
    {
      if m.pack == n.pack && n.pack == o.pack {
        AtMostTransitive(m.content, n.content, o.content);
      } else if m.pack != n.pack && n.pack != o.pack {
        AtMostTransitive(m.pack, n.pack, o.pack);
        if m.pack == o.pack {
          AtMostAntisymmetric(m.pack, n.pack);
        }
      }
    }
  }

  function Contents(members: seq<Member>): set<Id>
  {
    set m | m in members :: m.content
  }

  ghost predicate Owned(members: seq<Member>, id: Id)
  {
    exists m :: m in members && m.content == id && m.ownsSelection
  }

  /** Some enabled pack asks for this content to be on. */
  ghost predicate Demanded(requested: map<Id, Selection>, members: seq<Member>, id: Id)
  {
    exists m :: m in members && m.content == id && Demands(requested, m)
  }

  predicate Demands(requested: map<Id, Selection>, m: Member)
  {
    m.enabledByDefault && m.pack in requested && requested[m.pack].enabled
  }

  /** What the resolver can draw from: the installed items and the releases just obtained. */
  function Catalog(items: map<Id, Item>, added: set<Release>): set<Release>
  {
    (set id | id in items :: ReleaseOf(id, items[id])) + added
  }

  function ReleaseOf(id: Id, item: Item): Release
  {
    Release(id, item.version, item.kind, item.source)
  }

  /** One kind per identifier, and one release per identifier and version. */
  predicate ConsistentCatalog(catalog: set<Release>)
  {
    forall r, s :: r in catalog && s in catalog && r.id == s.id ==>
      r.kind == s.kind && (r.version == s.version ==> r == s)
  }

  /**
   * What every successful resolution guarantees: the catalog was consistent, each item is one of
   * its releases, and every selection has a matching item, enabled if the selection is.
   */
  predicate Resolution(catalog: set<Release>, requested: map<Id, Selection>, items: map<Id, Item>)
  {
    && ConsistentCatalog(catalog)
    && (forall id :: id in items ==> ReleaseOf(id, items[id]) in catalog)
    && (forall id :: id in requested ==>
         && id in items
         && Matches(requested[id].version, items[id].version)
         && (requested[id].enabled ==> items[id].enabled))
  }

  /** The membership checks of lock validation. */
  predicate ValidMembers(lock: Lock)
  {
    && StrictlyOrdered(lock.members)
    && (forall m :: m in lock.members ==>
         && m.pack != m.content
         && m.pack in lock.items && lock.items[m.pack].kind == Modpack
         && m.content in lock.items && lock.items[m.content].version == m.version
         && m.pack in lock.requested && Matches(lock.requested[m.pack].version, lock.items[m.pack].version)
         && m.content in lock.requested && Matches(lock.requested[m.content].version, m.version)
         && (lock.items[m.pack].enabled && m.enabledByDefault ==> lock.items[m.content].enabled))
    && AtMostOneOwner(lock.members)
  }

  predicate AtMostOneOwner(members: seq<Member>)
  {
    forall i, j :: 0 <= i < j < |members| && members[i].content == members[j].content ==>
      !(members[i].ownsSelection && members[j].ownsSelection)
  }

  /** Another enabled item resolved a required dependency to this one. */
  predicate RequiredByEnabledItem(items: map<Id, Item>, id: Id)
  {
    exists other :: other in items && items[other].enabled && other != id && RequiresItem(items[other], id)
  }

  predicate RequiresItem(item: Item, id: Id)
  {
    exists d :: d in item.dependencies && d.content == id && d.kind == Required && d.resolved
  }
}
