/** Whether a set of targets can be laid out as files: no duplicates, no target inside another. */
module TargetLayout {
  import opened Wrappers
  import opened Ordering

  datatype LayoutError = TargetCollision | AncestorCollision(target: string)

  /** The directories a path runs through. */
  function Ancestors(path: string): set<string>
  {
    set i | 0 <= i < |path| && path[i] == '/' :: path[..i]
  }

  predicate Compatible(a: string, b: string)
  {
    a != b && a !in Ancestors(b) && b !in Ancestors(a)
  }

  /** All different, and none a directory on the way to another. */
  predicate Layout(paths: seq<string>)
  {
    forall i, j :: 0 <= i < j < |paths| ==> Compatible(paths[i], paths[j])
  }

  function Keys(key: string -> string, targets: seq<string>): (r: seq<string>)
    ensures |r| == |targets|
    ensures forall i :: 0 <= i < |targets| ==> r[i] == key(targets[i])
  {
    seq(|targets|, i requires 0 <= i < |targets| => key(targets[i]))
  }

  predicate DistinctKeys(key: string -> string, targets: seq<string>)
  {
    forall i, j :: 0 <= i < j < |targets| ==> key(targets[i]) != key(targets[j])
  }

  lemma OwnAncestor(path: string)
    ensures path !in Ancestors(path)
  {
  }

  lemma AncestorsMean(path: string, a: string)
    ensures a in Ancestors(path) <==> a + "/" <= path
  {
    if a + "/" <= path {
      assert path[|a|] == '/' && path[..|a|] == a;
    }
  }

  /** Neither the same name nor the directory of the other. */
  predicate Beside(a: string, b: string)
  {
    a != b && !(a + "/" <= b)
  }

  /** Accepted are exactly sets in which all keys differ and none is followed by a separator in another. */
  lemma LayoutMeans(paths: seq<string>)
    ensures Layout(paths)
       <==> forall i, j :: 0 <= i < |paths| && 0 <= j < |paths| && i != j ==> Beside(paths[i], paths[j])
  {
    forall i, j | 0 <= i < |paths| && 0 <= j < |paths|
      ensures paths[i] in Ancestors(paths[j]) <==> paths[i] + "/" <= paths[j]
    {
      AncestorsMean(paths[j], paths[i]);
    }
    if Layout(paths) {
      forall i, j | 0 <= i < |paths| && 0 <= j < |paths| && i != j
        ensures Beside(paths[i], paths[j])
      {
        assert if i < j then Compatible(paths[i], paths[j]) else Compatible(paths[j], paths[i]);
      }
    }
  }

  // ----- The check ----------------------------------------------------------------------------------------

  /** The targets by key. */
  ghost predicate Collected(key: string -> string, targets: seq<string>, byKey: map<string, string>)
  {
    && (forall t :: t in targets ==> key(t) in byKey && byKey[key(t)] == t)
    && (forall k :: k in byKey ==> byKey[k] in targets && key(byKey[k]) == k)
  }

  method CollectTargets(key: string -> string, targets: seq<string>) returns (r: Result<map<string, string>, LayoutError>)
    ensures r.Success? <==> DistinctKeys(key, targets)
    ensures r.Success? ==> Collected(key, targets, r.value)
    ensures r.Failure? ==> r.error == TargetCollision
  {
    var byKey: map<string, string> := map[];
    for i := 0 to |targets|
      invariant DistinctKeys(key, targets[..i]) && Collected(key, targets[..i], byKey)
    {
      assert targets[..i + 1] == targets[..i] + [targets[i]];
      if key(targets[i]) in byKey {
        ghost var j :| 0 <= j < i && targets[j] == byKey[key(targets[i])];
        return Failure(TargetCollision);
      }
      forall j | 0 <= j < i
        ensures key(targets[j]) != key(targets[i])
      {
        assert targets[..i][j] in targets[..i];
      }
      byKey := byKey[key(targets[i]) := targets[i]];
    }
    assert targets[..|targets|] == targets;
    return Success(byKey);
  }

  /** Whether a key runs through another one: separator by separator. */
  method RunsThrough(k: string, byKey: map<string, string>) returns (r: bool)
    ensures r <==> exists a :: a in Ancestors(k) && a in byKey
  {
    for i := 0 to |k|
      invariant forall j :: 0 <= j < i && k[j] == '/' ==> k[..j] !in byKey
    {
      if k[i] == '/' && k[..i] in byKey {
        assert k[..i] in Ancestors(k);
        return true;
      }
    }
    return false;
  }

  method ValidateTargetSet(key: string -> string, targets: seq<string>) returns (r: Result<(), LayoutError>)
    ensures r.Success? <==> Layout(Keys(key, targets))
    ensures r == Failure(TargetCollision) <==> !DistinctKeys(key, targets)
    ensures r.Failure? && r.error.AncestorCollision? ==>
              r.error.target in targets && exists t :: t in targets && key(t) in Ancestors(key(r.error.target))
    ensures r.Success? <==>
            forall i, j :: 0 <= i < |targets| && 0 <= j < |targets| && i != j ==> Beside(key(targets[i]), key(targets[j]))
  {
    LayoutMeans(Keys(key, targets));
    var byKey := CollectTargets(key, targets);
    if byKey.Failure? {
      NotDistinct(key, targets);
      return Failure(byKey.error);
    }
    var todo := byKey.value.Keys;
    while todo != {}
      invariant todo <= byKey.value.Keys
      invariant forall k, a :: k in byKey.value && k !in todo && a in Ancestors(k) ==> a !in byKey.value
      decreases todo
    {
      var k :| k in todo;
      var inside := RunsThrough(k, byKey.value);
      if inside {
        ghost var a :| a in Ancestors(k) && a in byKey.value;
        InsideIsNoLayout(key, targets, byKey.value, k, a);
        return Failure(AncestorCollision(byKey.value[k]));
      }
      todo := todo - {k};
    }
    NoneInside(key, targets, byKey.value);
    return Success(());
  }

  lemma NotDistinct(key: string -> string, targets: seq<string>)
    requires !DistinctKeys(key, targets)
    ensures !Layout(Keys(key, targets))
  {
    var i, j :| 0 <= i < j < |targets| && key(targets[i]) == key(targets[j]);
    assert !Compatible(Keys(key, targets)[i], Keys(key, targets)[j]);
  }

  lemma InsideIsNoLayout(key: string -> string, targets: seq<string>, byKey: map<string, string>, k: string, a: string)
    requires Collected(key, targets, byKey) && k in byKey && a in byKey && a in Ancestors(k)
    ensures !Layout(Keys(key, targets))
  {
    OwnAncestor(k);
    var i :| 0 <= i < |targets| && targets[i] == byKey[k];
    var j :| 0 <= j < |targets| && targets[j] == byKey[a];
    var paths := Keys(key, targets);
    assert paths[i] == k && paths[j] == a;
    assert if i < j then !Compatible(paths[i], paths[j]) else !Compatible(paths[j], paths[i]);
  }

  lemma NoneInside(key: string -> string, targets: seq<string>, byKey: map<string, string>)
    requires DistinctKeys(key, targets) && Collected(key, targets, byKey)
    requires forall k, a :: k in byKey && a in Ancestors(k) ==> a !in byKey
    ensures Layout(Keys(key, targets))
  {
    var paths := Keys(key, targets);
    forall i, j | 0 <= i < j < |paths|
      ensures Compatible(paths[i], paths[j])
    {
      assert targets[i] in targets && targets[j] in targets;
    }
  }

  // ----- The order of the targets does not matter ----------------------------------------------------------------

  ghost predicate PairwiseCompatible(paths: multiset<string>)
  {
    forall a, b :: a in paths && b in paths && (a != b || paths[a] > 1) ==> Compatible(a, b)
  }

  /** A layout is a property of the collection of paths alone. */
  lemma LayoutIsUnordered(paths: seq<string>)
    ensures Layout(paths) <==> PairwiseCompatible(multiset(paths))
  {
    if Layout(paths) {
      forall a, b | a in multiset(paths) && b in multiset(paths) && (a != b || multiset(paths)[a] > 1)
        ensures Compatible(a, b)
      {
        LayoutPair(paths, a, b);
      }
    }
    if PairwiseCompatible(multiset(paths)) {
      forall i, j | 0 <= i < j < |paths|
        ensures Compatible(paths[i], paths[j])
      {
        assert paths[i] in multiset(paths) && paths[j] in multiset(paths);
        if paths[i] == paths[j] {
          TwoPositions(paths, i, j);
        }
      }
    }
  }

  lemma LayoutPair(paths: seq<string>, a: string, b: string)
    requires Layout(paths) && a in paths && b in paths && (a != b || multiset(paths)[a] > 1)
    ensures Compatible(a, b)
  {
    if a == b {
      var i, j := StandsTwice(paths, a);
    } else {
      var i :| 0 <= i < |paths| && paths[i] == a;
      var j :| 0 <= j < |paths| && paths[j] == b;
    }
  }

  /** Accepting a target set does not depend on the order in which its targets are listed. */
  lemma OrderDoesNotMatter(key: string -> string, targets: seq<string>, reordered: seq<string>)
    requires multiset(Keys(key, targets)) == multiset(Keys(key, reordered))
    ensures Layout(Keys(key, targets)) <==> Layout(Keys(key, reordered))
  {
    LayoutIsUnordered(Keys(key, targets));
    LayoutIsUnordered(Keys(key, reordered));
  }

  // ----- Creating the files ----------------------------------------------------------------------------------------

  /** Files and directories by portable path. */
  datatype Disk = Disk(files: set<string>, directories: set<string>)

  /** A new file needs its own place free, and no file where it needs a directory. */
  predicate CanCreate(disk: Disk, path: string)
  {
    path !in disk.files && path !in disk.directories && Ancestors(path) !! disk.files
  }

  function Create(disk: Disk, path: string): Disk
  {
    Disk(disk.files + {path}, disk.directories + Ancestors(path))
  }

  predicate CanCreateAll(disk: Disk, paths: seq<string>)
    decreases |paths|
  {
    paths == [] || (CanCreate(disk, paths[0]) && CanCreateAll(Create(disk, paths[0]), paths[1..]))
  }

  /** What is on a disk after creating these files on an empty one. */
  ghost predicate Holds(disk: Disk, created: seq<string>)
  {
    && (forall p :: p in disk.files <==> p in created)
    && (forall d :: d in disk.directories <==> exists p :: p in created && d in Ancestors(p))
  }

  lemma CreateOne(disk: Disk, created: seq<string>, path: string)
    requires Holds(disk, created) && Layout(created)
    ensures CanCreate(disk, path) <==> Layout(created + [path])
    ensures Holds(Create(disk, path), created + [path])
  {
    var all := created + [path];
    OwnAncestor(path);
    if CanCreate(disk, path) {
      forall i, j | 0 <= i < j < |all|
        ensures Compatible(all[i], all[j])
      {
        assert all[i] in created;
      }
    }
    if Layout(all) {
      forall p | p in created
        ensures Compatible(p, path)
      {
        var i :| 0 <= i < |created| && created[i] == p;
        assert Compatible(all[i], all[|created|]);
      }
    }
    forall d
      ensures d in Create(disk, path).directories <==> exists p :: p in all && d in Ancestors(p)
    {
      if d in Ancestors(path) {
        assert path in all;
      }
      if p :| p in created && d in Ancestors(p) {
        assert p in all;
      }
    }
  }

  lemma {:induction false} CreateRest(disk: Disk, created: seq<string>, rest: seq<string>)
    requires Holds(disk, created) && Layout(created)
    ensures CanCreateAll(disk, rest) <==> Layout(created + rest)
    decreases |rest|
  {
    if rest == [] {
      assert created + rest == created;
    } else {
      CreateOne(disk, created, rest[0]);
      assert (created + [rest[0]]) + rest[1..] == created + rest;
      if CanCreate(disk, rest[0]) {
        CreateRest(Create(disk, rest[0]), created + [rest[0]], rest[1..]);
      } else {
        LayoutPrefix(created + [rest[0]], rest[1..]);
      }
    }
  }

  lemma LayoutPrefix(front: seq<string>, back: seq<string>)
    ensures Layout(front + back) ==> Layout(front)
  {
    if Layout(front + back) {
      forall i, j | 0 <= i < j < |front|
        ensures Compatible(front[i], front[j])
      {
        assert Compatible((front + back)[i], (front + back)[j]);
      }
    }
  }

  /**
   * A target set is accepted exactly when its files can be created one after the other without a
   * path ever having to be both a file and a directory.
   */
  lemma AcceptedExactlyWhenCreatable(paths: seq<string>)
    ensures Layout(paths) <==> CanCreateAll(Disk({}, {}), paths)
  {
    assert [] + paths == paths;
    CreateRest(Disk({}, {}), [], paths);
  }
}
