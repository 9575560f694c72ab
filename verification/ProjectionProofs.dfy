/** The planned moves never interfere, never meet an occupied place, and end in the desired files. */
module ProjectionProofs {
  import opened Wrappers
  import opened Ordering
  import opened Journal
  import opened Markers
  import opened ProjectionPlan

  // ----- Orderly concatenations -------------------------------------------------------------------------

  predicate Apart(m: Move, n: Move)
  {
    m.source != n.source && m.destination != n.destination && m.destination != n.source
  }

  lemma OrderlyConcat(a: seq<Move>, b: seq<Move>)
    requires Orderly(a) && Orderly(b)
    requires forall m, n :: m in a && n in b ==> Apart(m, n)
    ensures Orderly(a + b)
  {
    var all := a + b;
    forall i, j | 0 <= i < j < |all|
      ensures Apart(all[i], all[j])
    {
      if i < |a| <= j {
        assert all[i] in a && all[j] in b;
      }
    }
  }

  predicate Ready(env: Env, files: Files, left: set<Path>, m: Move)
  {
    && m.source in files
    && m.destination !in env.directories
    && (m.destination in files ==> m.destination in left)
  }

  function Sources(moves: seq<Move>): set<Path>
  {
    set m | m in moves :: m.source
  }

  /** Every source is there from the start; a destination is free or has been left before. */
  predicate AllReady(env: Env, files: Files, left: set<Path>, moves: seq<Move>)
    decreases |moves|
  {
    moves == [] || (Ready(env, files, left, moves[0]) && AllReady(env, files, left + {moves[0].source}, moves[1..]))
  }

  lemma {:induction false} AllReadyConcat(env: Env, files: Files, left: set<Path>, a: seq<Move>, b: seq<Move>)
    requires AllReady(env, files, left, a) && AllReady(env, files, left + Sources(a), b)
    ensures AllReady(env, files, left, a + b)
    decreases |a|
  {
    if a == [] {
      assert a + b == b;
      assert left + Sources(a) == left;
    } else {
      assert (a + b)[1..] == a[1..] + b;
      assert left + {a[0].source} + Sources(a[1..]) == left + Sources(a);
      AllReadyConcat(env, files, left + {a[0].source}, a[1..], b);
    }
  }

  lemma {:induction false} AllReadyWhenFree(env: Env, files: Files, left: set<Path>, moves: seq<Move>)
    requires forall m :: m in moves ==> Ready(env, files, left, m)
    ensures AllReady(env, files, left, moves)
    decreases |moves|
  {
    if moves != [] {
      assert moves[0] in moves;
      forall m | m in moves[1..]
        ensures Ready(env, files, left + {moves[0].source}, m)
      {
        assert m in moves;
      }
      AllReadyWhenFree(env, files, left + {moves[0].source}, moves[1..]);
    }
  }

  /**
   * `files` are the original files after moves that left `left` and filled `filled`: everything
   * else is untouched and what was left and not filled is free.
   */
  ghost predicate Progress(original: Files, files: Files, left: set<Path>, filled: set<Path>)
  {
    && (forall p :: p !in left && p !in filled ==> (p in files <==> p in original))
    && (forall p :: p in left && p !in filled ==> p !in files)
  }

  lemma {:induction false} OrderlyLegal(env: Env, original: Files, files: Files, left: set<Path>, filled: set<Path>,
                                        moves: seq<Move>)
    requires Progress(original, files, left, filled) && AllReady(env, original, left, moves)
    requires Orderly(moves)
    requires forall m :: m in moves ==> m.source !in left && m.source !in filled && m.destination !in filled
    ensures Legal(env, files, moves)
    decreases |moves|
  {
    if moves != [] {
      var m, rest := moves[0], moves[1..];
      assert m in moves;
      assert CanMove(env, files, m);
      forall n | n in rest
        ensures Apart(m, n) && n in moves
      {
        var k :| 0 <= k < |rest| && rest[k] == n;
        assert moves[k + 1] == n;
      }
      OrderlyLegal(env, original, Moved(files, m), left + {m.source}, filled + {m.destination}, rest);
    }
  }

  // ----- The shape of the planned moves ------------------------------------------------------------------------

  /** A backup takes a replaced item's file to the slot of its position. */
  predicate IsBackup(job: Job, items: seq<ProjectedItem>, index: nat, m: Move)
  {
    && m.source.Instance? && m.destination.Backup? && m.destination.tx == job.tx
    && 0 <= m.destination.index - index < |items|
    && items[m.destination.index - index].target == m.source.target
    && job.Replaced(items[m.destination.index - index])
  }

  lemma {:induction false} BackupShape(job: Job, items: seq<ProjectedItem>, index: nat)
    ensures forall m :: m in BackupMoves(job, items, index) ==> IsBackup(job, items, index, m)
    ensures forall y :: y in items && job.Replaced(y) ==> Instance(y.target) in Sources(BackupMoves(job, items, index))
  {
    if items != [] {
      var moves, tail := BackupMoves(job, items, index), BackupMoves(job, items[1..], index + 1);
      BackupShape(job, items[1..], index + 1);
      forall m | m in moves
        ensures IsBackup(job, items, index, m)
      {
        if m in tail {
          assert IsBackup(job, items[1..], index + 1, m);
          assert items[1..][m.destination.index - (index + 1)] == items[m.destination.index - index];
        }
      }
      forall y | y in items && job.Replaced(y)
        ensures Instance(y.target) in Sources(moves)
      {
        if y in items[1..] {
          var m :| m in tail && m.source == Instance(y.target);
          assert m in moves;
        } else {
          assert y == items[0] && moves[0] in moves;
        }
      }
    }
  }

  predicate DistinctTargets(items: seq<ProjectedItem>)
  {
    forall i, j :: 0 <= i < j < |items| ==> items[i].target != items[j].target
  }

  lemma {:induction false} BackupsOrderly(job: Job, items: seq<ProjectedItem>, index: nat)
    requires DistinctTargets(items)
    ensures Orderly(BackupMoves(job, items, index))
  {
    if items != [] {
      var tail := BackupMoves(job, items[1..], index + 1);
      BackupsOrderly(job, items[1..], index + 1);
      BackupShape(job, items[1..], index + 1);
      if job.Replaced(items[0]) {
        var m := Move(Instance(items[0].target), Backup(job.tx, index));
        forall n | n in tail
          ensures Apart(m, n)
        {
          assert IsBackup(job, items[1..], index + 1, n);
        }
        OrderlyConcat([m], tail);
      }
    }
  }

  predicate IsActivation(job: Job, files: Files, items: seq<ProjectedItem>, m: Move)
  {
    exists x :: x in items && x in job.desired.items && !job.Skipped(x, files) && m == ActivationMove(job, x)
  }

  lemma {:induction false} ActivationShape(job: Job, files: Files, items: seq<ProjectedItem>)
    requires forall x :: x in items ==> x in job.desired.items
    ensures forall m :: m in ActivationMoves(job, files, items) ==> IsActivation(job, files, items, m)
    ensures forall x :: x in items && !job.Skipped(x, files) ==> ActivationMove(job, x) in ActivationMoves(job, files, items)
  {
    if items != [] {
      var moves, tail := ActivationMoves(job, files, items), ActivationMoves(job, files, items[1..]);
      ActivationShape(job, files, items[1..]);
      assert items[0] in items;
      forall m | m in moves
        ensures IsActivation(job, files, items, m)
      {
        if m in tail {
          var x :| x in items[1..] && x in job.desired.items && !job.Skipped(x, files) && m == ActivationMove(job, x);
          assert x in items;
        }
      }
    }
  }

  lemma {:induction false} ActivationsOrderly(job: Job, files: Files, items: seq<ProjectedItem>)
    requires forall x :: x in items ==> x in job.desired.items
    requires DistinctTargets(items)
    ensures Orderly(ActivationMoves(job, files, items))
  {
    if items != [] {
      var tail := ActivationMoves(job, files, items[1..]);
      ActivationsOrderly(job, files, items[1..]);
      ActivationShape(job, files, items[1..]);
      assert items[0] in items;
      if !job.Skipped(items[0], files) {
        forall n | n in tail
          ensures Apart(ActivationMove(job, items[0]), n)
        {
          var x :| x in items[1..] && x in job.desired.items && n == ActivationMove(job, x);
          var k :| 0 <= k < |items[1..]| && items[1..][k] == x;
          assert items[k + 1].target != items[0].target;
        }
        OrderlyConcat([ActivationMove(job, items[0])], tail);
      }
    }
  }

  /** Items in key order still have distinct keys, hence distinct targets. */
  lemma {:induction false} OrderKeepsDistinct(platform: Platform, items: seq<ProjectedItem>, order: seq<ProjectedItem>)
    requires DistinctKeys(platform, items) && multiset(order) == multiset(items)
    ensures DistinctTargets(order)
  {
    forall i, j | 0 <= i < j < |order|
      ensures order[i].target != order[j].target
    {
      SameElements(items, order);
      assert order[i] in items && order[j] in items;
      var k :| 0 <= k < |items| && items[k] == order[i];
      var l :| 0 <= l < |items| && items[l] == order[j];
      if k == l {
        TwoPositions(order, i, j);
        OnceWhenDistinct(platform, items, items[k]);
      }
    }
  }

  lemma {:induction false} OnceWhenDistinct(platform: Platform, items: seq<ProjectedItem>, x: ProjectedItem)
    requires DistinctKeys(platform, items)
    ensures multiset(items)[x] <= 1
  {
    if items != [] {
      OnceWhenDistinct(platform, items[1..], x);
      assert items == [items[0]] + items[1..];
      if x in items[1..] {
        var k :| 0 <= k < |items[1..]| && items[1..][k] == x;
        assert platform.key(items[0].target) != platform.key(items[k + 1].target);
      }
    }
  }

  predicate BackupLike(job: Job, m: Move)
  {
    || (m.source.Instance? && m.destination.Backup? && m.destination.tx == job.tx)
    || (m.source.MarkerFile? && m.destination == BackupMarker(job.tx))
  }

  predicate ActivationLike(job: Job, m: Move)
  {
    || (m.source.Staged? && m.source.tx == job.tx && m.destination.Instance?)
    || m == CommitMove(job)
  }

  function Activations(job: Job, files: Files): seq<Move>
  {
    ActivationMoves(job, files, DesiredInOrder(job)) + [CommitMove(job)]
  }

  lemma BackupsShape(job: Job, files: Files)
    ensures forall m :: m in Backups(job, files) ==> BackupLike(job, m)
  {
    BackupShape(job, PreviousInOrder(job), 0);
  }

  lemma ActivationsShape(job: Job, files: Files)
    ensures forall m :: m in Activations(job, files) ==> ActivationLike(job, m)
  {
    ActivationShape(job, files, DesiredInOrder(job));
  }

  lemma BackupsAreOrderly(job: Job, files: Files)
    requires DistinctKeys(job.platform, job.previous)
    ensures Orderly(Backups(job, files))
  {
    var order := PreviousInOrder(job);
    OrderKeepsDistinct(job.platform, job.previous, order);
    BackupsOrderly(job, order, 0);
    BackupShape(job, order, 0);
    OrderlyConcat(BackupMoves(job, order, 0), MarkerBackup(job, files));
  }

  lemma ActivationsAreOrderly(job: Job, files: Files)
    requires DistinctKeys(job.platform, job.desired.items)
    ensures Orderly(Activations(job, files))
  {
    var order := DesiredInOrder(job);
    OrderKeepsDistinct(job.platform, job.desired.items, order);
    ActivationsOrderly(job, files, order);
    ActivationShape(job, files, order);
    OrderlyConcat(ActivationMoves(job, files, order), [CommitMove(job)]);
  }

  /** The whole plan is orderly. */
  lemma MovesOrderly(job: Job, files: Files)
    requires DistinctKeys(job.platform, job.previous) && DistinctKeys(job.platform, job.desired.items)
    ensures Orderly(AllMoves(job, files))
  {
    BackupsAreOrderly(job, files);
    ActivationsAreOrderly(job, files);
    BackupsShape(job, files);
    ActivationsShape(job, files);
    OrderlyConcat(Backups(job, files), Activations(job, files));
  }

  // ----- Readiness --------------------------------------------------------------------------------------------------

  lemma PreviousMeans(job: Job, x: ProjectedItem)
    requires job.Previous(x).Some?
    ensures job.Previous(x).value in job.previous
    ensures job.platform.key(job.Previous(x).value.target) == job.platform.key(x.target)
  {
    KeyMapMeaning(job.platform, job.previous);
  }

  lemma DesiredFound(job: Job, x: ProjectedItem)
    requires DistinctKeys(job.platform, job.desired.items) && x in job.desired.items
    ensures job.Desired(x) == Some(x)
  {
    KeyMapMeaning(job.platform, job.desired.items);
  }

  lemma PreviousFound(job: Job, y: ProjectedItem)
    requires DistinctKeys(job.platform, job.previous) && y in job.previous
    ensures job.Previous(y) == Some(y)
  {
    KeyMapMeaning(job.platform, job.previous);
  }

  /** An item to be activated over an existing file replaces a managed file of the same name. */
  lemma ActivatedOverManaged(job: Job, files: Files, x: ProjectedItem) returns (y: ProjectedItem)
    requires Validated(job, files) && x in job.desired.items && !job.Skipped(x, files)
    requires Instance(x.target) in files
    ensures y in job.previous && y.target == x.target && job.Replaced(y)
  {
    assert MayOverwrite(job, x);
    y := job.Previous(x).value;
    PreviousMeans(job, x);
    DesiredFound(job, x);
  }

  lemma BackupsReady(job: Job, files: Files)
    requires Validated(job, files)
    ensures AllReady(job.env, AfterStaging(job, files), {}, Backups(job, files))
  {
    var staged, order := AfterStaging(job, files), PreviousInOrder(job);
    SameElements(order, job.previous);
    BackupShape(job, order, 0);
    forall m | m in Backups(job, files)
      ensures Ready(job.env, staged, {}, m)
    {
      if m in BackupMoves(job, order, 0) {
        assert IsBackup(job, order, 0, m);
        assert order[m.destination.index] in order;
      }
    }
    AllReadyWhenFree(job.env, staged, {}, Backups(job, files));
  }

  lemma BackedUp(job: Job, files: Files, y: ProjectedItem)
    requires y in job.previous && job.Replaced(y)
    ensures Instance(y.target) in Sources(Backups(job, files))
  {
    var order := PreviousInOrder(job);
    SameElements(order, job.previous);
    BackupShape(job, order, 0);
    var m :| m in BackupMoves(job, order, 0) && m.source == Instance(y.target);
    assert m in Backups(job, files);
  }

  lemma ActivationReady(job: Job, files: Files, x: ProjectedItem)
    requires Validated(job, files) && x in job.desired.items && !job.Skipped(x, files)
    ensures Ready(job.env, AfterStaging(job, files), Sources(Backups(job, files)), ActivationMove(job, x))
  {
    var i := PositionOf(job.desired.items, x);
    assert Staged(job.tx, i) in StagedSlots(job, files);
    if Instance(x.target) in files {
      var y := ActivatedOverManaged(job, files, x);
      BackedUp(job, files, y);
    }
  }

  lemma CommitReady(job: Job, files: Files)
    requires Validated(job, files)
    ensures Ready(job.env, AfterStaging(job, files), Sources(Backups(job, files)), CommitMove(job))
  {
    if MarkerFile in files {
      var m := MarkerBackup(job, files)[0];
      assert m in Backups(job, files) && m.source == MarkerFile;
    }
  }

  lemma ActivationsReady(job: Job, files: Files)
    requires Validated(job, files)
    ensures AllReady(job.env, AfterStaging(job, files), Sources(Backups(job, files)), Activations(job, files))
  {
    ActivationShape(job, files, DesiredInOrder(job));
    forall m | m in Activations(job, files)
      ensures Ready(job.env, AfterStaging(job, files), Sources(Backups(job, files)), m)
    {
      if m in ActivationMoves(job, files, DesiredInOrder(job)) {
        assert IsActivation(job, files, DesiredInOrder(job), m);
        var x :| x in job.desired.items && !job.Skipped(x, files) && m == ActivationMove(job, x);
        ActivationReady(job, files, x);
      } else {
        CommitReady(job, files);
      }
    }
    AllReadyWhenFree(job.env, AfterStaging(job, files), Sources(Backups(job, files)), Activations(job, files));
  }

  /**
   * On validated input no planned rename meets a missing source or an occupied destination: only
   * the file system itself can stop the plan.
   */
  lemma MovesLegal(job: Job, files: Files)
    requires Validated(job, files)
    ensures Legal(job.env, AfterStaging(job, files), AllMoves(job, files))
  {
    var staged := AfterStaging(job, files);
    BackupsReady(job, files);
    ActivationsReady(job, files);
    assert {} + Sources(Backups(job, files)) == Sources(Backups(job, files));
    AllReadyConcat(job.env, staged, {}, Backups(job, files), Activations(job, files));
    MovesOrderly(job, files);
    OrderlyLegal(job.env, staged, staged, {}, {}, AllMoves(job, files));
  }
}
