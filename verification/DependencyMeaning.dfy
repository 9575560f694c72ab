/**
 * What a dependency refers to and what a download brings, told by the provider's answers alone:
 * the pinned version, or the first listed one of those the provider returns.
 */
module DependencyMeaning {
  import opened Wrappers
  import opened DependencyGraph
  import C = ContentModel

  /** Made for this game version and, if it is a mod or a modpack, for this loader. */
  predicate MadeFor(target: Target, version: Version, kind: C.Kind)
  {
    target.minecraft in version.gameVersions && (kind in {C.Mod, C.Modpack} ==> target.loader in version.loaders)
  }

  lemma CompatibilityMeans(target: Target, version: Version, kind: C.Kind)
    ensures CompatibilityFault(version, kind, target).None? <==> MadeFor(target, version, kind)
    ensures !MadeFor(target, version, kind) ==>
              CompatibilityFault(version, kind, target)
              == Some(if target.minecraft in version.gameVersions then LoaderIncompatible else MinecraftIncompatible)
  {
  }

  // ----- What a dependency refers to -------------------------------------------------------------------------

  /** The first listed of these versions. */
  ghost predicate NewestListed(versions: seq<Version>, version: Version)
  {
    exists i :: 0 <= i < |versions| && versions[i].listed && versions[i] == version
                && forall j :: 0 <= j < i ==> !versions[j].listed
  }

  predicate NoneListed(versions: seq<Version>)
  {
    forall i :: 0 <= i < |versions| ==> !versions[i].listed
  }

  lemma {:induction false} FirstListedMeans(versions: seq<Version>)
    ensures FirstListed(versions).None? <==> NoneListed(versions)
    ensures FirstListed(versions).Some? ==> NewestListed(versions, FirstListed(versions).value)
    ensures forall version :: NewestListed(versions, version) ==> FirstListed(versions) == Some(version)
  {
    if versions != [] {
      var rest := versions[1..];
      FirstListedMeans(rest);
      if !versions[0].listed {
        forall version
          ensures NewestListed(versions, version) <==> NewestListed(rest, version)
        {
          ListedBehind(versions, version);
        }
      }
      assert forall i :: 0 <= i < |rest| ==> rest[i] == versions[i + 1];
    }
  }

  lemma ListedBehind(versions: seq<Version>, version: Version)
    requires versions != [] && !versions[0].listed
    ensures NewestListed(versions, version) <==> NewestListed(versions[1..], version)
  {
    var rest := versions[1..];
    if i :| 0 <= i < |versions| && versions[i].listed && versions[i] == version && forall j :: 0 <= j < i ==> !versions[j].listed {
      assert rest[i - 1] == version;
      assert forall j :: 0 <= j < i - 1 ==> rest[j] == versions[j + 1];
    }
    if i :| 0 <= i < |rest| && rest[i].listed && rest[i] == version && forall j :: 0 <= j < i ==> !rest[j].listed {
      assert versions[i + 1] == version;
      assert forall j :: 0 < j < i + 1 ==> versions[j] == rest[j - 1];
    }
  }

  /** A pinned dependency refers to exactly the version the provider has for that id. */
  predicate PinnedTo(provider: Provider, target: Target, d: Dependency, version: Version, kind: C.Kind)
  {
    && d.version.Some? && provider.version(d.version.value) == Some(version)
    && (d.project.Some? ==> d.project.value == version.project)
    && provider.kind(version.project) == Some(kind)
    && (d.kind != Incompatible ==> MadeFor(target, version, kind))
  }

  /** One that names a project only refers to the project's first listed version. */
  ghost predicate NewestOf(provider: Provider, d: Dependency, version: Version, kind: C.Kind)
  {
    && d.version.None? && d.project.Some? && d.kind != Incompatible
    && provider.kind(d.project.value) == Some(kind)
    && provider.versions(d.project.value, kind).Some?
    && NewestListed(provider.versions(d.project.value, kind).value, version)
  }

  /** An incompatibility with a project concerns all its versions. */
  predicate WholeProject(provider: Provider, d: Dependency)
  {
    d.version.None? && d.project.Some? && d.kind == Incompatible && provider.kind(d.project.value).Some?
  }

  /** Nothing is named, or the project has no listed version. */
  predicate NothingNamed(provider: Provider, d: Dependency)
  {
    && d.version.None?
    && (d.project.Some? ==>
          && d.kind != Incompatible && provider.kind(d.project.value).Some?
          && provider.versions(d.project.value, provider.kind(d.project.value).value).Some?
          && NoneListed(provider.versions(d.project.value, provider.kind(d.project.value).value).value))
  }

  lemma PinnedResolves(provider: Provider, target: Target, d: Dependency)
    requires d.version.Some?
    ensures forall version, kind :: PinnedTo(provider, target, d, version, kind) <==>
              Resolve(provider, target, d) == Success(Some(Lookup(version.project, Some(version), kind)))
    ensures Resolve(provider, target, d).Success? ==> Resolve(provider, target, d).value.Some?
                                                      && Resolve(provider, target, d).value.value.version.Some?
    ensures Resolve(provider, target, d).Failure? ==>
              var error := Resolve(provider, target, d).error;
              match provider.version(d.version.value)
              case None => error == LookupFailed
              case Some(v) =>
                if d.project.Some? && d.project.value != v.project then error == IdentityMismatch
                else if provider.kind(v.project).None? then error == LookupFailed
                else error == if target.minecraft in v.gameVersions then LoaderIncompatible else MinecraftIncompatible
  {
  }

  lemma NewestResolves(provider: Provider, target: Target, d: Dependency)
    requires d.version.None?
    ensures forall version, kind :: NewestOf(provider, d, version, kind) ==>
              Resolve(provider, target, d) == Success(Some(Lookup(d.project.value, Some(version), kind)))
    ensures WholeProject(provider, d) ==>
              Resolve(provider, target, d)
              == Success(Some(Lookup(d.project.value, None, provider.kind(d.project.value).value)))
    ensures Resolve(provider, target, d) == Success(None) <==> NothingNamed(provider, d)
    ensures Resolve(provider, target, d).Success? && Resolve(provider, target, d).value.Some? ==>
              var found := Resolve(provider, target, d).value.value;
              && d.project == Some(found.project)
              && if found.version.Some? then NewestOf(provider, d, found.version.value, found.kind) else WholeProject(provider, d)
    ensures Resolve(provider, target, d).Failure? ==> Resolve(provider, target, d).error == LookupFailed
    ensures Resolve(provider, target, d).Failure? <==>
            d.project.Some?
            && (provider.kind(d.project.value).None?
                || (d.kind != Incompatible && provider.versions(d.project.value, provider.kind(d.project.value).value).None?))
  {
    if d.project.Some? && provider.kind(d.project.value).Some? {
      var versions := provider.versions(d.project.value, provider.kind(d.project.value).value);
      if versions.Some? {
        FirstListedMeans(versions.value);
      }
    }
  }

  /** What is recorded: the project, with the exact version found, or with any for an incompatible project. */
  ghost predicate RecordedAs(provider: Provider, target: Target, d: Dependency, c: ContentDependency)
  {
    && d.kind != Embedded && c.kind == d.kind
    && (|| (exists version, kind :: PinnedTo(provider, target, d, version, kind)
                                    && c.contentId == version.project && c.requirement == C.Exact(version.id))
        || (exists version, kind :: NewestOf(provider, d, version, kind)
                                    && c.contentId == d.project.value && c.requirement == C.Exact(version.id))
        || (WholeProject(provider, d) && c.contentId == d.project.value && c.requirement == C.Any))
  }

  /** What is required next: the version a required dependency refers to, with the kind of its project. */
  ghost predicate RequiredAs(provider: Provider, target: Target, d: Dependency, n: Node)
  {
    d.kind == Required && (PinnedTo(provider, target, d, n.version, n.kind) || NewestOf(provider, d, n.version, n.kind))
  }

  lemma RecordsMeans(provider: Provider, target: Target, d: Dependency, c: ContentDependency)
    ensures Records(provider, target, d, c) <==> RecordedAs(provider, target, d, c)
  {
    if d.version.Some? {
      PinnedResolves(provider, target, d);
    } else {
      NewestResolves(provider, target, d);
    }
  }

  lemma RequiresMeans(provider: Provider, target: Target, d: Dependency, n: Node)
    ensures Requires(provider, target, d, n) <==> RequiredAs(provider, target, d, n)
  {
    if d.version.Some? {
      PinnedResolves(provider, target, d);
    } else {
      NewestResolves(provider, target, d);
    }
  }

  /** A dependency stops the download unless it is embedded, refers to something, or is not required and refers to nothing. */
  lemma FaultMeans(provider: Provider, target: Target, d: Dependency)
    ensures DependencyFault(provider, target, d).None?
       <==> || d.kind == Embedded
            || (exists version, kind :: PinnedTo(provider, target, d, version, kind))
            || (exists version, kind :: NewestOf(provider, d, version, kind))
            || WholeProject(provider, d)
            || (d.kind != Required && NothingNamed(provider, d))
    ensures DependencyFault(provider, target, d) == Some(DependencyMissing) <==> d.kind == Required && NothingNamed(provider, d)
  {
    if d.version.Some? {
      PinnedResolves(provider, target, d);
      if Resolve(provider, target, d).Success? {
        var found := Resolve(provider, target, d).value.value;
        assert PinnedTo(provider, target, d, found.version.value, found.kind);
      }
    } else {
      NewestResolves(provider, target, d);
    }
  }

  // ----- What a download brings -------------------------------------------------------------------------------------

  /** A version is downloaded if it is made for the target, no dependency stops it, and the download works. */
  lemma NodeMeans(provider: Provider, target: Target, node: Node)
    ensures NodeFault(provider, target, node).None?
       <==> && MadeFor(target, node.version, node.kind) && provider.downloads(node)
            && forall d :: d in node.version.dependencies ==> DependencyFault(provider, target, d).None?
  {
    ExpandMeaning(provider, target, node.version.dependencies);
  }

  /** In a download that succeeded each release lists exactly what its version's dependencies refer to. */
  lemma ReleaseLists(provider: Provider, target: Target, root: Node, releases: seq<Release>, r: Release, c: ContentDependency)
    requires Complete(GraphOf(provider, target, root), releases) && r in releases
    ensures c in r.dependencies <==> exists d :: d in r.node.version.dependencies && RecordedAs(provider, target, d, c)
  {
    var g, ds := GraphOf(provider, target, root), r.node.version.dependencies;
    Described(provider, target, root, r.node);
    ExpandMeaning(provider, target, ds);
    if d :| d in ds && Records(provider, target, d, c) {
      RecordsMeans(provider, target, d, c);
    }
    if d :| d in ds && RecordedAs(provider, target, d, c) {
      RecordsMeans(provider, target, d, c);
    }
  }

  /** And whatever a release requires is released too, by project and version id. */
  lemma RequiredIsReleased(provider: Provider, target: Target, root: Node, releases: seq<Release>, r: Release, d: Dependency,
                           n: Node)
    requires Complete(GraphOf(provider, target, root), releases) && r in releases
    requires d in r.node.version.dependencies && RequiredAs(provider, target, d, n)
    ensures exists s :: s in releases && s.node.version.project == n.version.project && s.node.version.id == n.version.id
  {
    var g := GraphOf(provider, target, root);
    Described(provider, target, root, r.node);
    ExpandMeaning(provider, target, r.node.version.dependencies);
    RequiresMeans(provider, target, d, n);
    assert n in g.next(r.node);
    assert ReleasedAs(releases, n);
  }

  /** Every release is made for the target and was downloaded; none is there twice, and the root is there. */
  lemma ReleasesAreSound(provider: Provider, target: Target, root: Node, releases: seq<Release>)
    requires Complete(GraphOf(provider, target, root), releases)
    ensures |releases| <= 512
    ensures forall i, j :: 0 <= i < j < |releases| ==>
              releases[i].node.version.project != releases[j].node.version.project
              || releases[i].node.version.id != releases[j].node.version.id
    ensures exists s :: s in releases && s.node.version.project == root.version.project && s.node.version.id == root.version.id
    ensures forall r :: r in releases ==> MadeFor(target, r.node.version, r.node.kind) && provider.downloads(r.node)
  {
    var g := GraphOf(provider, target, root);
    assert ReleasedAs(releases, g.root);
    forall r | r in releases
      ensures MadeFor(target, r.node.version, r.node.kind) && provider.downloads(r.node)
    {
      Described(provider, target, root, r.node);
      NodeMeans(provider, target, r.node);
    }
    forall i, j | 0 <= i < j < |releases|
      ensures releases[i].node.version.project != releases[j].node.version.project
              || releases[i].node.version.id != releases[j].node.version.id
    {
      assert Identity(releases[i].node) != Identity(releases[j].node);
    }
  }

  /** Of two listed versions the provider's first is downloaded, whichever is older. */
  lemma FirstOfTwo(provider: Provider, target: Target, d: Dependency, a: Version, b: Version, kind: C.Kind)
    requires d == Dependency(Required, Some(a.project), None) && provider.kind(a.project) == Some(kind)
    requires provider.versions(a.project, kind) == Some([a, b]) && a.listed && b.listed
    ensures forall n :: RequiredAs(provider, target, d, n) <==> n == Node(a, kind)
  {
    var versions := [a, b];
    assert versions[0].listed && versions[0] == a;
    assert NewestListed(versions, a);
    forall n | RequiredAs(provider, target, d, n)
      ensures n == Node(a, kind)
    {
      FirstListedMeans([a, b]);
    }
  }
}
