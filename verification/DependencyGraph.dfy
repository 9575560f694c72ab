/** Downloading a version together with everything it requires, directly or not. */
module DependencyGraph {
  import opened Wrappers
  import C = ContentModel

  const MAX_RELEASES := 512

  datatype DependencyType = Required | Optional | Incompatible | Embedded

  datatype Dependency = Dependency(kind: DependencyType, project: Option<string>, version: Option<string>)

  datatype Version = Version(project: string, id: string, listed: bool, gameVersions: seq<string>, loaders: seq<string>,
                             dependencies: seq<Dependency>)

  /** What is being installed for. */
  datatype Target = Target(minecraft: string, loader: string)

  datatype GraphError =
    | LookupFailed
    | IdentityMismatch
    | MinecraftIncompatible
    | LoaderIncompatible
    | DependencyMissing
    | GraphTooLarge
    | DownloadFailed

  datatype Node = Node(version: Version, kind: C.Kind)

  /**
   * The provider: a version by its id, a project's kind, a project's versions for a kind (newest
   * first), and whether a node can be downloaded. `None` is a look-up that failed.
   */
  datatype Provider = Provider(
    version: string -> Option<Version>,
    kind: string -> Option<C.Kind>,
    versions: (string, C.Kind) -> Option<seq<Version>>,
    downloads: Node -> bool)

  datatype ContentDependency = ContentDependency(contentId: string, kind: DependencyType, requirement: C.Requirement)

  datatype Release = Release(node: Node, dependencies: seq<ContentDependency>)

  function Identity(node: Node): (string, string)
  {
    (node.version.project, node.version.id)
  }

  // ----- Looking up one dependency ------------------------------------------------------------------------

  function CompatibilityFault(version: Version, kind: C.Kind, target: Target): Option<GraphError>
  {
    if target.minecraft !in version.gameVersions then Some(MinecraftIncompatible)
    else if (kind == C.Mod || kind == C.Modpack) && target.loader !in version.loaders then Some(LoaderIncompatible)
    else None
  }

  function FirstListed(versions: seq<Version>): Option<Version>
  {
    if versions == [] then None
    else if versions[0].listed then Some(versions[0])
    else FirstListed(versions[1..])
  }

  datatype Lookup = Lookup(project: string, version: Option<Version>, kind: C.Kind)

  /** What a dependency refers to: a pinned version, or the newest listed version of a project. */
  function Resolve(provider: Provider, target: Target, d: Dependency): Result<Option<Lookup>, GraphError>
  {
    if d.version.Some? then
      match provider.version(d.version.value)
      case None => Failure(LookupFailed)
      case Some(version) =>
        if d.project.Some? && d.project.value != version.project then Failure(IdentityMismatch)
        else
          match provider.kind(version.project)
          case None => Failure(LookupFailed)
          case Some(kind) =>
            var fault := CompatibilityFault(version, kind, target);
            if d.kind != Incompatible && fault.Some? then Failure(fault.value)
            else Success(Some(Lookup(version.project, Some(version), kind)))
    else if d.project.None? then Success(None)
    else
      match provider.kind(d.project.value)
      case None => Failure(LookupFailed)
      case Some(kind) =>
        if d.kind == Incompatible then Success(Some(Lookup(d.project.value, None, kind)))
        else
          match provider.versions(d.project.value, kind)
          case None => Failure(LookupFailed)
          case Some(versions) =>
            match FirstListed(versions)
            case None => Success(None)
            case Some(version) => Success(Some(Lookup(d.project.value, Some(version), kind)))
  }

  // ----- One node ---------------------------------------------------------------------------------------------

  /** The dependencies recorded with a release, and the nodes it requires. */
  datatype Expansion = Expansion(dependencies: seq<ContentDependency>, required: seq<Node>)

  function RequirementOf(version: Option<Version>): C.Requirement
  {
    match version
    case None => C.Any
    case Some(v) => C.Exact(v.id)
  }

  /** One more dependency. */
  function Extend(provider: Provider, target: Target, e: Expansion, d: Dependency): Result<Expansion, GraphError>
  {
    if d.kind == Embedded then Success(e)
    else
      match Resolve(provider, target, d)
      case Failure(error) => Failure(error)
      case Success(None) => if d.kind == Required then Failure(DependencyMissing) else Success(e)
      case Success(Some(found)) =>
        Success(Expansion(e.dependencies + [ContentDependency(found.project, d.kind, RequirementOf(found.version))],
                          if d.kind == Required && found.version.Some?
                          then e.required + [Node(found.version.value, found.kind)] else e.required))
  }

  function Expand(provider: Provider, target: Target, ds: seq<Dependency>): Result<Expansion, GraphError>
  {
    if ds == [] then Success(Expansion([], []))
    else
      match Expand(provider, target, ds[..|ds| - 1])
      case Failure(error) => Failure(error)
      case Success(e) => Extend(provider, target, e, ds[|ds| - 1])
  }

  /** What is wrong with a node itself, if anything. */
  function NodeFault(provider: Provider, target: Target, node: Node): Option<GraphError>
  {
    var fault := CompatibilityFault(node.version, node.kind, target);
    if fault.Some? then fault
    else
      match Expand(provider, target, node.version.dependencies)
      case Failure(error) => Some(error)
      case Success(_) => if provider.downloads(node) then None else Some(DownloadFailed)
  }

  function Successors(provider: Provider, target: Target, node: Node): seq<Node>
  {
    match Expand(provider, target, node.version.dependencies)
    case Failure(_) => []
    case Success(e) => e.required
  }

  /** The dependencies recorded with a node's release. */
  function Recorded(provider: Provider, target: Target, node: Node): seq<ContentDependency>
  {
    match Expand(provider, target, node.version.dependencies)
    case Failure(_) => []
    case Success(e) => e.dependencies
  }

  // ----- What is recorded and required, dependency by dependency ---------------------------------------------

  /** What is wrong with a dependency: its look-up fails, or it is required and refers to nothing. */
  function DependencyFault(provider: Provider, target: Target, d: Dependency): Option<GraphError>
  {
    if d.kind == Embedded then None
    else
      match Resolve(provider, target, d)
      case Failure(error) => Some(error)
      case Success(None) => if d.kind == Required then Some(DependencyMissing) else None
      case Success(_) => None
  }

  /** The dependency is recorded like this: its project, and the exact version if one was found. */
  predicate Records(provider: Provider, target: Target, d: Dependency, c: ContentDependency)
  {
    d.kind != Embedded
    && match Resolve(provider, target, d)
       case Success(Some(found)) => c == ContentDependency(found.project, d.kind, RequirementOf(found.version))
       case _ => false
  }

  /** The dependency is a required one, and this is the version it refers to. */
  predicate Requires(provider: Provider, target: Target, d: Dependency, n: Node)
  {
    d.kind == Required
    && match Resolve(provider, target, d)
       case Success(Some(found)) => found.version == Some(n.version) && found.kind == n.kind
       case _ => false
  }

  predicate FaultlessDependencies(provider: Provider, target: Target, ds: seq<Dependency>)
  {
    forall d :: d in ds ==> DependencyFault(provider, target, d).None?
  }

  lemma ExtendMeaning(provider: Provider, target: Target, e: Expansion, d: Dependency)
    ensures Extend(provider, target, e, d).Success? <==> DependencyFault(provider, target, d).None?
    ensures Extend(provider, target, e, d).Failure? ==>
              DependencyFault(provider, target, d) == Some(Extend(provider, target, e, d).error)
    ensures Extend(provider, target, e, d).Success? ==>
              var next := Extend(provider, target, e, d).value;
              && (forall c :: c in next.dependencies <==> c in e.dependencies || Records(provider, target, d, c))
              && (forall n :: n in next.required <==> n in e.required || Requires(provider, target, d, n))
  {
  }

  lemma LastOf<T>(s: seq<T>)
    requires s != []
    ensures forall x :: x in s <==> x in s[..|s| - 1] || x == s[|s| - 1]
  {
    assert s == s[..|s| - 1] + [s[|s| - 1]];
  }

  /**
   * A node expands exactly if no dependency is faulty. Then recorded are exactly the dependencies
   * that are not embedded and refer to something, and required next are exactly the versions the
   * required ones refer to.
   */
  lemma {:induction false} ExpandMeaning(provider: Provider, target: Target, ds: seq<Dependency>)
    ensures Expand(provider, target, ds).Success? <==> FaultlessDependencies(provider, target, ds)
    ensures Expand(provider, target, ds).Success? ==>
              var e := Expand(provider, target, ds).value;
              && (forall c :: c in e.dependencies <==> exists d :: d in ds && Records(provider, target, d, c))
              && (forall n :: n in e.required <==> exists d :: d in ds && Requires(provider, target, d, n))
  {
    if ds != [] {
      var before := Expand(provider, target, ds[..|ds| - 1]);
      ExpandMeaning(provider, target, ds[..|ds| - 1]);
      LastOf(ds);
      if before.Success? {
        ExtendMeaning(provider, target, before.value, ds[|ds| - 1]);
      }
    }
  }

  /** Otherwise the first faulty dependency decides the error. */
  lemma FirstFaultDecides(provider: Provider, target: Target, ds: seq<Dependency>, i: nat)
    requires i < |ds| && FaultlessDependencies(provider, target, ds[..i])
    requires DependencyFault(provider, target, ds[i]).Some?
    ensures Expand(provider, target, ds) == Failure(DependencyFault(provider, target, ds[i]).value)
  {
    ExpandMeaning(provider, target, ds[..i]);
    assert ds[..i + 1][..i] == ds[..i];
    ExtendMeaning(provider, target, Expand(provider, target, ds[..i]).value, ds[i]);
    FailureStays(provider, target, ds, i + 1);
  }

  /** Dependencies are recorded in their order: those of two lists one after the other. */
  lemma {:induction false} ExpandConcat(provider: Provider, target: Target, a: seq<Dependency>, b: seq<Dependency>)
    requires Expand(provider, target, a).Success? && Expand(provider, target, b).Success?
    ensures Expand(provider, target, a + b)
         == Success(Expansion(Expand(provider, target, a).value.dependencies + Expand(provider, target, b).value.dependencies,
                              Expand(provider, target, a).value.required + Expand(provider, target, b).value.required))
  {
    if b == [] {
      assert a + b == a;
      var e := Expand(provider, target, a).value;
      assert e.dependencies + [] == e.dependencies && e.required + [] == e.required;
    } else {
      var front, last := b[..|b| - 1], b[|b| - 1];
      assert (a + b)[..|a + b| - 1] == a + front && (a + b)[|a + b| - 1] == last;
      ExpandConcat(provider, target, a, front);
      ExtendAfter(provider, target, Expand(provider, target, a).value, Expand(provider, target, front).value, last);
    }
  }

  lemma ExtendAfter(provider: Provider, target: Target, a: Expansion, e: Expansion, d: Dependency)
    requires Extend(provider, target, e, d).Success?
    ensures var next := Extend(provider, target, e, d).value;
            Extend(provider, target, Expansion(a.dependencies + e.dependencies, a.required + e.required), d)
            == Success(Expansion(a.dependencies + next.dependencies, a.required + next.required))
  {
    var next := Extend(provider, target, e, d).value;
    AfterPrefix(a.dependencies, e.dependencies, next.dependencies);
    AfterPrefix(a.required, e.required, next.required);
  }

  lemma AfterPrefix<T>(a: seq<T>, e: seq<T>, next: seq<T>)
    ensures e <= next ==> (a + e) + next[|e|..] == a + next
    ensures e == next ==> a + e == a + next
  {
  }

  /** Dependency by dependency. */
  method ExpandNode(provider: Provider, target: Target, ds: seq<Dependency>) returns (r: Result<Expansion, GraphError>)
    ensures r == Expand(provider, target, ds)
  {
    var e := Expansion([], []);
    for i := 0 to |ds|
      invariant Expand(provider, target, ds[..i]) == Success(e)
    {
      assert ds[..i + 1][..i] == ds[..i];
      var next := Extend(provider, target, e, ds[i]);
      if next.Failure? {
        FailureStays(provider, target, ds, i + 1);
        return next;
      }
      e := next.value;
    }
    assert ds[..|ds|] == ds;
    return Success(e);
  }

  lemma {:induction false} FailureStays(provider: Provider, target: Target, ds: seq<Dependency>, n: nat)
    requires n <= |ds| && Expand(provider, target, ds[..n]).Failure?
    ensures Expand(provider, target, ds) == Expand(provider, target, ds[..n])
    decreases |ds| - n
  {
    if n == |ds| {
      assert ds[..n] == ds;
    } else {
      assert ds[..n + 1][..n] == ds[..n];
      FailureStays(provider, target, ds, n + 1);
    }
  }

  /** Checks a node, looks up what it depends on, and downloads it. */
  method Download(provider: Provider, target: Target, node: Node) returns (r: Result<(Release, seq<Node>), GraphError>)
    ensures r.Success? <==> NodeFault(provider, target, node).None?
    ensures r.Success? ==>
              r.value.0 == Release(node, Recorded(provider, target, node)) && r.value.1 == Successors(provider, target, node)
    ensures r.Failure? ==> NodeFault(provider, target, node) == Some(r.error)
  {
    var fault := CompatibilityFault(node.version, node.kind, target);
    if fault.Some? {
      return Failure(fault.value);
    }
    var expansion := ExpandNode(provider, target, node.version.dependencies);
    if expansion.Failure? {
      return Failure(expansion.error);
    }
    if !provider.downloads(node) {
      return Failure(DownloadFailed);
    }
    return Success((Release(node, expansion.value.dependencies), expansion.value.required));
  }

  // ----- Reachability ----------------------------------------------------------------------------------------------

  /** The graph of required dependencies: what a node requires, and what is wrong with it. */
  datatype Graph = Graph(root: Node, next: Node -> seq<Node>, fault: Node -> Option<GraphError>,
                         recorded: Node -> seq<ContentDependency>)

  function GraphOf(provider: Provider, target: Target, root: Node): Graph
  {
    Graph(root, n => Successors(provider, target, n), n => NodeFault(provider, target, n), n => Recorded(provider, target, n))
  }

  ghost predicate Path(g: Graph, path: seq<Node>)
  {
    path != [] && forall i :: 0 < i < |path| ==> path[i] in g.next(path[i - 1])
  }

  /** There is a chain of required dependencies from one node to the other. */
  ghost predicate Reachable(g: Graph, node: Node)
  {
    exists path :: Path(g, path) && path[0] == g.root && path[|path| - 1] == node
  }

  lemma ReachableRoot(g: Graph)
    ensures Reachable(g, g.root)
  {
    assert Path(g, [g.root]);
  }

  lemma ReachableStep(g: Graph, node: Node, next: Node)
    requires Reachable(g, node) && next in g.next(node)
    ensures Reachable(g, next)
  {
    var path :| Path(g, path) && path[0] == g.root && path[|path| - 1] == node;
    assert Path(g, path + [next]);
  }

  /** A set of flawless nodes that contains the root and everything its members require. */
  ghost predicate Closed(g: Graph, nodes: set<Node>)
  {
    && g.root in nodes
    && forall n :: n in nodes ==>
         g.fault(n).None? && forall m :: m in g.next(n) ==> m in nodes
  }

  lemma {:induction false} PathStaysInside(g: Graph, nodes: set<Node>, path: seq<Node>)
    requires Closed(g, nodes) && Path(g, path) && path[0] == g.root
    ensures path[|path| - 1] in nodes
    decreases |path|
  {
    var n := |path|;
    if n > 1 {
      var prefix := path[..n - 1];
      assert Path(g, prefix);
      PathStaysInside(g, nodes, prefix);
      assert path[n - 1] in g.next(path[n - 2]);
    }
  }

  lemma ReachableStaysInside(g: Graph, nodes: set<Node>, node: Node)
    requires Closed(g, nodes) && Reachable(g, node)
    ensures node in nodes
  {
    var path :| Path(g, path) && path[0] == g.root && path[|path| - 1] == node;
    PathStaysInside(g, nodes, path);
  }

  function Identities(nodes: set<Node>): set<(string, string)>
  {
    set n | n in nodes :: Identity(n)
  }

  /** The provider describes a version the same way each time it is reached. */
  ghost predicate Coherent(g: Graph)
  {
    forall m, n :: Reachable(g, m) && Reachable(g, n) && Identity(m) == Identity(n) ==> m == n
  }

  /** Everything reachable is flawless and not too much. */
  ghost predicate Installable(g: Graph)
  {
    exists nodes :: Closed(g, nodes) && |Identities(nodes)| <= MAX_RELEASES
  }

  // ----- The worklist ----------------------------------------------------------------------------------------------

  /** Done nodes are flawless, and what they require is done, under its identity, or waiting. */
  ghost predicate Frontier(g: Graph, visited: set<Node>, queue: seq<Node>, scheduled: set<(string, string)>)
  {
    && (Identity(g.root) in scheduled || g.root in queue)
    && (forall n :: n in visited || n in queue ==> Reachable(g, n))
    && (forall n :: n in visited ==> g.fault(n).None?)
    && (forall n, m :: n in visited && m in g.next(n) ==> Identity(m) in scheduled || m in queue)
  }

  ghost predicate Identified(visited: set<Node>, scheduled: set<(string, string)>)
  {
    |scheduled| == |visited| && scheduled == Identities(visited)
  }

  /** One release per done node. */
  ghost predicate Released(g: Graph, visited: set<Node>, releases: seq<Release>)
  {
    && |releases| == |visited|
    && (forall n :: n in visited <==> exists i :: 0 <= i < |releases| && releases[i].node == n)
    && (forall r :: r in releases ==> r.dependencies == g.recorded(r.node))
  }

  ghost predicate DistinctIdentities(releases: seq<Release>)
  {
    forall i, j :: 0 <= i < j < |releases| ==> Identity(releases[i].node) != Identity(releases[j].node)
  }

  /** What holds whenever the next element of the queue is looked at. */
  ghost predicate Working(g: Graph, visited: set<Node>, queue: seq<Node>, scheduled: set<(string, string)>,
                          releases: seq<Release>)
  {
    && |scheduled| <= MAX_RELEASES
    && Frontier(g, visited, queue, scheduled) && Identified(visited, scheduled)
    && Released(g, visited, releases) && DistinctIdentities(releases)
  }

  lemma Started(g: Graph)
    ensures Working(g, {}, [g.root], {}, [])
  {
    ReachableRoot(g);
  }

  lemma HeadOrTail(queue: seq<Node>, m: Node)
    requires queue != []
    ensures m in queue <==> m == queue[0] || m in queue[1..]
  {
    assert queue == [queue[0]] + queue[1..];
  }

  lemma Skip(g: Graph, visited: set<Node>, queue: seq<Node>, scheduled: set<(string, string)>)
    requires queue != [] && Identity(queue[0]) in scheduled && Frontier(g, visited, queue, scheduled)
    ensures Frontier(g, visited, queue[1..], scheduled)
  {
    HeadOrTail(queue, g.root);
    forall n, m | n in visited && m in g.next(n)
      ensures Identity(m) in scheduled || m in queue[1..]
    {
      HeadOrTail(queue, m);
    }
  }

  lemma Visit(g: Graph, visited: set<Node>, queue: seq<Node>, scheduled: set<(string, string)>)
    requires queue != [] && Frontier(g, visited, queue, scheduled) && g.fault(queue[0]).None?
    ensures Frontier(g, visited + {queue[0]}, queue[1..] + g.next(queue[0]), scheduled + {Identity(queue[0])})
  {
    var node, next := queue[0], g.next(queue[0]);
    HeadOrTail(queue, g.root);
    forall m | m in next
      ensures Reachable(g, m)
    {
      ReachableStep(g, node, m);
    }
    forall n, m | n in visited && m in g.next(n)
      ensures Identity(m) in scheduled + {Identity(node)} || m in queue[1..] + next
    {
      HeadOrTail(queue, m);
    }
  }

  lemma Scheduled(visited: set<Node>, scheduled: set<(string, string)>, node: Node)
    requires Identified(visited, scheduled) && Identity(node) !in scheduled
    ensures node !in visited && Identified(visited + {node}, scheduled + {Identity(node)})
  {
    assert Identities(visited + {node}) == scheduled + {Identity(node)};
  }

  lemma OneMoreRelease(g: Graph, visited: set<Node>, releases: seq<Release>, release: Release)
    requires Released(g, visited, releases) && release.node !in visited
    requires release.dependencies == g.recorded(release.node)
    ensures Released(g, visited + {release.node}, releases + [release])
  {
    var more := releases + [release];
    forall n
      ensures n in visited + {release.node} <==> exists i :: 0 <= i < |more| && more[i].node == n
    {
      if n in visited {
        var i :| 0 <= i < |releases| && releases[i].node == n;
        assert more[i].node == n;
      }
      if n == release.node {
        assert more[|releases|].node == n;
      }
      if i :| 0 <= i < |more| && more[i].node == n {
        assert i < |releases| ==> releases[i].node == n;
      }
    }
  }

  lemma StaysDistinct(g: Graph, visited: set<Node>, scheduled: set<(string, string)>, releases: seq<Release>, release: Release)
    requires DistinctIdentities(releases) && Identified(visited, scheduled) && Identity(release.node) !in scheduled
    requires Released(g, visited, releases)
    ensures DistinctIdentities(releases + [release])
  {
    var more := releases + [release];
    forall i, j | 0 <= i < j < |more|
      ensures Identity(more[i].node) != Identity(more[j].node)
    {
      assert more[i].node in visited;
    }
  }

  lemma Visited(g: Graph, visited: set<Node>, queue: seq<Node>, scheduled: set<(string, string)>, releases: seq<Release>)
    requires Working(g, visited, queue, scheduled, releases) && queue != []
    requires Identity(queue[0]) !in scheduled && |scheduled + {Identity(queue[0])}| <= MAX_RELEASES
    requires g.fault(queue[0]).None?
    ensures Working(g, visited + {queue[0]}, queue[1..] + g.next(queue[0]), scheduled + {Identity(queue[0])},
                    releases + [Release(queue[0], g.recorded(queue[0]))])
  {
    var release := Release(queue[0], g.recorded(queue[0]));
    Scheduled(visited, scheduled, queue[0]);
    StaysDistinct(g, visited, scheduled, releases, release);
    Visit(g, visited, queue, scheduled);
    OneMoreRelease(g, visited, releases, release);
  }

  // ----- How it can end ---------------------------------------------------------------------------------------------

  lemma FaultBlocks(g: Graph, node: Node)
    requires Reachable(g, node) && g.fault(node).Some?
    ensures !Installable(g)
  {
    if nodes :| Closed(g, nodes) && |Identities(nodes)| <= MAX_RELEASES {
      ReachableStaysInside(g, nodes, node);
    }
  }

  lemma SubsetSize<T>(a: set<T>, b: set<T>)
    requires a <= b
    ensures |a| <= |b|
  {
    assert b == a + (b - a);
  }

  lemma InsideEveryClosed(g: Graph, some: set<Node>, nodes: set<Node>)
    requires (forall n :: n in some ==> Reachable(g, n)) && Closed(g, nodes)
    ensures |Identities(some)| <= |Identities(nodes)|
  {
    forall n | n in some
      ensures n in nodes
    {
      ReachableStaysInside(g, nodes, n);
    }
    SubsetSize(Identities(some), Identities(nodes));
  }

  /** More identities than allowed are reachable. */
  ghost predicate TooMany(g: Graph)
  {
    exists some :: AllReachable(g, some) && |Identities(some)| > MAX_RELEASES
  }

  ghost predicate AllReachable(g: Graph, some: set<Node>)
  {
    forall n :: n in some ==> Reachable(g, n)
  }

  lemma TooManyBlocks(g: Graph)
    requires TooMany(g)
    ensures !Installable(g)
  {
    var some :| AllReachable(g, some) && |Identities(some)| > MAX_RELEASES;
    if nodes :| Closed(g, nodes) && |Identities(nodes)| <= MAX_RELEASES {
      InsideEveryClosed(g, some, nodes);
    }
  }

  lemma TooManyScheduled(g: Graph, visited: set<Node>, queue: seq<Node>, scheduled: set<(string, string)>)
    requires Frontier(g, visited, queue, scheduled) && Identified(visited, scheduled) && queue != []
    requires Identity(queue[0]) !in scheduled && |scheduled + {Identity(queue[0])}| > MAX_RELEASES
    ensures TooMany(g)
  {
    var some := visited + {queue[0]};
    Scheduled(visited, scheduled, queue[0]);
    ReachableSoFar(g, visited, queue, scheduled);
    TooManyOf(g, some);
  }

  lemma TooManyOf(g: Graph, some: set<Node>)
    requires AllReachable(g, some) && |Identities(some)| > MAX_RELEASES
    ensures TooMany(g)
  {
  }

  lemma ReachableSoFar(g: Graph, visited: set<Node>, queue: seq<Node>, scheduled: set<(string, string)>)
    requires Frontier(g, visited, queue, scheduled) && queue != []
    ensures AllReachable(g, visited + {queue[0]})
  {
  }

  /**
   * One release per identity: each is of a reachable, flawless version, and the root and whatever a
   * released version requires is released under its identity.
   */
  ghost predicate Complete(g: Graph, releases: seq<Release>)
  {
    && |releases| <= MAX_RELEASES && DistinctIdentities(releases)
    && (forall r :: r in releases ==>
         Reachable(g, r.node) && g.fault(r.node).None? && r.dependencies == g.recorded(r.node))
    && ReleasedAs(releases, g.root)
    && (forall r, m :: r in releases && m in g.next(r.node) ==> ReleasedAs(releases, m))
  }

  predicate ReleasedAs(releases: seq<Release>, m: Node)
  {
    exists r :: r in releases && Identity(r.node) == Identity(m)
  }

  lemma ScheduledIsReleased(g: Graph, visited: set<Node>, scheduled: set<(string, string)>, releases: seq<Release>, m: Node)
    requires Identified(visited, scheduled) && Released(g, visited, releases) && Identity(m) in scheduled
    ensures ReleasedAs(releases, m)
  {
    var n :| n in visited && Identity(n) == Identity(m);
    var i :| 0 <= i < |releases| && releases[i].node == n;
    assert releases[i] in releases;
  }

  lemma Finished(g: Graph, visited: set<Node>, scheduled: set<(string, string)>, releases: seq<Release>)
    requires Working(g, visited, [], scheduled, releases)
    ensures Complete(g, releases)
  {
    ScheduledIsReleased(g, visited, scheduled, releases, g.root);
    forall r | r in releases
      ensures r.node in visited
    {
      var i :| 0 <= i < |releases| && releases[i] == r;
    }
    forall r, m | r in releases && m in g.next(r.node)
      ensures ReleasedAs(releases, m)
    {
      ScheduledIsReleased(g, visited, scheduled, releases, m);
    }
  }

  /** Exactly one release for every reachable node, and nothing else. */
  ghost predicate ExactlyReachable(g: Graph, releases: seq<Release>)
  {
    && |releases| <= MAX_RELEASES && DistinctIdentities(releases)
    && (forall n :: Reachable(g, n) <==> n in Nodes(releases))
    && (forall r :: r in releases ==> r.dependencies == g.recorded(r.node))
  }

  function Nodes(releases: seq<Release>): set<Node>
  {
    set r | r in releases :: r.node
  }

  lemma CoherentRelease(g: Graph, releases: seq<Release>, m: Node)
    requires Coherent(g) && Complete(g, releases) && ReleasedAs(releases, m) && Reachable(g, m)
    ensures m in Nodes(releases)
  {
    var r :| r in releases && Identity(r.node) == Identity(m);
    assert r.node == m;
  }

  lemma CoherentClosed(g: Graph, releases: seq<Release>)
    requires Coherent(g) && Complete(g, releases)
    ensures Closed(g, Nodes(releases))
  {
    ReachableRoot(g);
    CoherentRelease(g, releases, g.root);
    forall n, m | n in Nodes(releases) && m in g.next(n)
      ensures m in Nodes(releases)
    {
      var r :| r in releases && r.node == n;
      ReachableStep(g, n, m);
      CoherentRelease(g, releases, m);
    }
  }

  lemma {:induction false} FewIdentities(releases: seq<Release>)
    ensures |Identities(Nodes(releases))| <= |releases|
  {
    if releases != [] {
      var n := |releases| - 1;
      FewIdentities(releases[..n]);
      assert releases == releases[..n] + [releases[n]];
      assert Nodes(releases) == Nodes(releases[..n]) + {releases[n].node};
      assert Identities(Nodes(releases)) == Identities(Nodes(releases[..n])) + {Identity(releases[n].node)};
    }
  }

  /** If the provider is coherent, complete is exactly everything reachable, and that was installable. */
  lemma CompleteIsExact(g: Graph, releases: seq<Release>)
    requires Coherent(g) && Complete(g, releases)
    ensures ExactlyReachable(g, releases) && Installable(g)
  {
    CoherentClosed(g, releases);
    FewIdentities(releases);
    forall n | Reachable(g, n)
      ensures n in Nodes(releases)
    {
      ReachableStaysInside(g, Nodes(releases), n);
    }
  }

  /** Every way the worklist can end. */
  ghost predicate Ends(g: Graph, r: Result<seq<Release>, GraphError>)
  {
    match r
    case Success(releases) => Complete(g, releases)
    case Failure(GraphTooLarge) => TooMany(g)
    case Failure(error) => exists n :: Reachable(g, n) && g.fault(n) == Some(error)
  }

  lemma Described(provider: Provider, target: Target, root: Node, node: Node)
    ensures var g := GraphOf(provider, target, root);
            && g.fault(node) == NodeFault(provider, target, node)
            && g.next(node) == Successors(provider, target, node)
            && g.recorded(node) == Recorded(provider, target, node)
  {
  }

  lemma FaultEnds(g: Graph, visited: set<Node>, queue: seq<Node>, scheduled: set<(string, string)>, error: GraphError)
    requires Frontier(g, visited, queue, scheduled) && queue != [] && g.fault(queue[0]) == Some(error)
    requires error != GraphTooLarge
    ensures Ends(g, Failure(error))
  {
  }

  lemma FaultIsNotSize(provider: Provider, target: Target, ds: seq<Dependency>)
    ensures Expand(provider, target, ds).Failure? ==> Expand(provider, target, ds).error != GraphTooLarge
  {
    if ds != [] {
      FaultIsNotSize(provider, target, ds[..|ds| - 1]);
    }
  }

  lemma NodeFaultIsNotSize(provider: Provider, target: Target, node: Node)
    ensures NodeFault(provider, target, node) != Some(GraphTooLarge)
  {
    FaultIsNotSize(provider, target, node.version.dependencies);
  }

  /** The next node of the queue: done already, or downloaded, or the end. */
  method WorkOff(provider: Provider, target: Target, root: Node, ghost g: Graph) returns (r: Result<seq<Release>, GraphError>)
    requires g == GraphOf(provider, target, root)
    ensures Ends(g, r)
  {
    var queue, scheduled, releases := [root], {}, [];
    ghost var visited: set<Node> := {};
    Started(g);
    while queue != []
      invariant Working(g, visited, queue, scheduled, releases)
      decreases MAX_RELEASES - |scheduled|, |queue|
    {
      var node := queue[0];
      if Identity(node) in scheduled {
        Skip(g, visited, queue, scheduled);
        queue := queue[1..];
        continue;
      }
      if |scheduled + {Identity(node)}| > MAX_RELEASES {
        TooManyScheduled(g, visited, queue, scheduled);
        return Failure(GraphTooLarge);
      }
      var release := Download(provider, target, node);
      Described(provider, target, root, node);
      if release.Failure? {
        NodeFaultIsNotSize(provider, target, node);
        FaultEnds(g, visited, queue, scheduled, release.error);
        return Failure(release.error);
      }
      Visited(g, visited, queue, scheduled, releases);
      scheduled := scheduled + {Identity(node)};
      queue := queue[1..] + release.value.1;
      releases := releases + [release.value.0];
      visited := visited + {node};
    }
    Finished(g, visited, scheduled, releases);
    return Success(releases);
  }

  /** An installable graph ends well, and a coherent one ends well only if it is installable. */
  lemma EndsMean(g: Graph, r: Result<seq<Release>, GraphError>)
    requires Ends(g, r)
    ensures Installable(g) ==> r.Success?
    ensures r.Success? && Coherent(g) ==> Installable(g) && ExactlyReachable(g, r.value)
  {
    match r
    case Success(releases) =>
      if Coherent(g) {
        CompleteIsExact(g, releases);
      }
    case Failure(GraphTooLarge) => TooManyBlocks(g);
    case Failure(error) =>
      var n :| Reachable(g, n) && g.fault(n) == Some(error);
      FaultBlocks(g, n);
  }

  /**
   * Works off a queue of versions, remembering identities. It ends, because each round either
   * uses up one of 512 identities or shortens the queue. It succeeds whenever everything reachable
   * is flawless and not too much, and only then if the provider is coherent.
   */
  method DownloadGraph(provider: Provider, target: Target, root: Node) returns (r: Result<seq<Release>, GraphError>)
    ensures Installable(GraphOf(provider, target, root)) ==> r.Success?
    ensures r.Success? ==> Complete(GraphOf(provider, target, root), r.value)
    ensures r.Success? && Coherent(GraphOf(provider, target, root)) ==>
              Installable(GraphOf(provider, target, root)) && ExactlyReachable(GraphOf(provider, target, root), r.value)
    ensures Ends(GraphOf(provider, target, root), r)
  {
    r := WorkOff(provider, target, root, GraphOf(provider, target, root));
    EndsMean(GraphOf(provider, target, root), r);
  }
}
