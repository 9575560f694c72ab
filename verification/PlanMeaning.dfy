/** The steps of a projection in their order: which moves, with which slots, and where the checkpoints are. */
module PlanMeaning {
  import opened Wrappers
  import opened Ordering
  import opened Journal
  import opened Markers
  import opened ProjectionPlan
  import opened ProjectionProofs
  import opened LaunchMeaning

  // ----- Key order ----------------------------------------------------------------------------------------

  lemma KeyOrderIsTotal(platform: Platform)
    ensures TotalPreorder(KeyOrder(platform))
  {
    var le := KeyOrder(platform);
    forall x: ProjectedItem, y: ProjectedItem
      ensures le(x, y) || le(y, x)
    {
      AtMostTotal(platform.key(x.target), platform.key(y.target));
    }
    forall x: ProjectedItem, y: ProjectedItem, z: ProjectedItem | le(x, y) && le(y, z)
      ensures le(x, z)
    {
      AtMostTransitive(platform.key(x.target), platform.key(y.target), platform.key(z.target));
    }
  }

  /** The items strictly ascend by key. */
  predicate Ascending(platform: Platform, items: seq<ProjectedItem>)
  {
    forall i, j :: 0 <= i < j < |items| ==>
      AtMost(platform.key(items[i].target), platform.key(items[j].target))
      && platform.key(items[i].target) != platform.key(items[j].target)
  }

  lemma SortedAscends(platform: Platform, items: seq<ProjectedItem>)
    requires DistinctKeys(platform, items)
    ensures Ascending(platform, SortBy(items, KeyOrder(platform)))
  {
    var order := SortBy(items, KeyOrder(platform));
    KeyOrderIsTotal(platform);
    SortByOrders(items, KeyOrder(platform));
    forall i, j | 0 <= i < j < |order|
      ensures AtMost(platform.key(order[i].target), platform.key(order[j].target))
      ensures platform.key(order[i].target) != platform.key(order[j].target)
    {
      assert KeyOrder(platform)(order[i], order[j]);
      KeysDiffer(platform, items, order, i, j);
    }
  }

  lemma KeysDiffer(platform: Platform, items: seq<ProjectedItem>, order: seq<ProjectedItem>, i: nat, j: nat)
    requires DistinctKeys(platform, items) && multiset(order) == multiset(items) && i < j < |order|
    ensures platform.key(order[i].target) != platform.key(order[j].target)
  {
    SameElements(items, order);
    assert order[i] in items && order[j] in items;
    var k :| 0 <= k < |items| && items[k] == order[i];
    var l :| 0 <= l < |items| && items[l] == order[j];
    if k == l {
      TwoPositions(order, i, j);
      OnceWhenDistinct(platform, items, items[k]);
    }
  }

  // ----- Slots --------------------------------------------------------------------------------------------------

  /** The items whose key comes before this one's. */
  function Before(platform: Platform, items: seq<ProjectedItem>, y: ProjectedItem): set<ProjectedItem>
  {
    set z | z in items && AtMost(platform.key(z.target), platform.key(y.target))
            && platform.key(z.target) != platform.key(y.target)
  }

  lemma {:induction false} DistinctCount<T>(s: seq<T>)
    requires forall i, j :: 0 <= i < j < |s| ==> s[i] != s[j]
    ensures |set x | x in s| == |s|
  {
    if s != [] {
      var rest := s[1..];
      DistinctCount(rest);
      assert (set x | x in s) == (set x | x in rest) + {s[0]};
    }
  }

  /** The position in ascending order is the number of items before. */
  lemma PositionIsRank(platform: Platform, items: seq<ProjectedItem>, order: seq<ProjectedItem>, k: nat)
    requires Ascending(platform, order) && k < |order| && forall x :: x in items <==> x in order
    ensures |Before(platform, items, order[k])| == k
  {
    var front := order[..k];
    forall i, j | 0 <= i < j < |front|
      ensures front[i] != front[j]
    {
      assert front[i] == order[i] && front[j] == order[j];
    }
    DistinctCount(front);
    forall z
      ensures z in Before(platform, items, order[k]) <==> z in front
    {
      EarlierIsBefore(platform, order, k, z);
    }
    assert Before(platform, items, order[k]) == set x | x in front;
  }

  lemma EarlierIsBefore(platform: Platform, order: seq<ProjectedItem>, k: nat, z: ProjectedItem)
    requires Ascending(platform, order) && k < |order|
    ensures z in order && AtMost(platform.key(z.target), platform.key(order[k].target))
            && platform.key(z.target) != platform.key(order[k].target)
       <==> z in order[..k]
  {
    if z in order && z !in order[..k] {
      var i :| 0 <= i < |order| && order[i] == z;
      if AtMost(platform.key(z.target), platform.key(order[k].target)) && k < i {
        AtMostAntisymmetric(platform.key(z.target), platform.key(order[k].target));
      }
    }
  }

  /** A managed item that is wanted no more in this form. */
  predicate NoLongerWanted(job: Job, y: ProjectedItem)
  {
    !y.isOverride
    && forall x :: x in job.desired.items && !x.isOverride && x.target == y.target ==> x.sha256 != y.sha256 || x.size != y.size
  }

  lemma ReplacedMeans(job: Job, y: ProjectedItem)
    requires DistinctKeys(job.platform, job.desired.items)
    ensures job.Replaced(y) <==> NoLongerWanted(job, y)
  {
    KeyMapMeaning(job.platform, job.desired.items);
  }

  /** Each managed file wanted no more goes to the slot numbered by the old items that come before it by key. */
  lemma BackupSlot(job: Job, m: Move)
    requires DistinctKeys(job.platform, job.previous) && DistinctKeys(job.platform, job.desired.items)
    ensures m in BackupMoves(job, PreviousInOrder(job), 0)
       <==> exists y :: y in job.previous && NoLongerWanted(job, y)
                        && m == Move(Instance(y.target), Backup(job.tx, |Before(job.platform, job.previous, y)|))
  {
    var order := PreviousInOrder(job);
    SameElements(order, job.previous);
    SortedAscends(job.platform, job.previous);
    BackupShape(job, order, 0);
    if m in BackupMoves(job, order, 0) {
      assert IsBackup(job, order, 0, m);
      var y := order[m.destination.index];
      assert y in order;
      ReplacedMeans(job, y);
      PositionIsRank(job.platform, job.previous, order, m.destination.index);
    }
    if y :| y in job.previous && NoLongerWanted(job, y)
            && m == Move(Instance(y.target), Backup(job.tx, |Before(job.platform, job.previous, y)|)) {
      ReplacedMeans(job, y);
      var n :| n in BackupMoves(job, order, 0) && n.source == Instance(y.target);
      BackupOf(job, order, y, n);
      PositionIsRank(job.platform, job.previous, order, n.destination.index);
    }
  }

  lemma BackupOf(job: Job, order: seq<ProjectedItem>, y: ProjectedItem, n: Move)
    requires Ascending(job.platform, order) && y in order
    requires n in BackupMoves(job, order, 0) && n.source == Instance(y.target)
    ensures n.destination.Backup? && n.destination.index < |order| && order[n.destination.index] == y
    ensures n == Move(Instance(y.target), Backup(job.tx, n.destination.index))
  {
    BackupShape(job, order, 0);
    assert IsBackup(job, order, 0, n);
    var i :| 0 <= i < |order| && order[i] == y;
  }

  predicate SlotsAscend(moves: seq<Move>)
  {
    && (forall m :: m in moves ==> m.destination.Backup?)
    && forall i, j :: 0 <= i < j < |moves| ==> moves[i].destination.index < moves[j].destination.index
  }

  lemma SlotInFront(m: Move, tail: seq<Move>)
    requires m.destination.Backup? && SlotsAscend(tail)
    requires forall n :: n in tail ==> m.destination.index < n.destination.index
    ensures SlotsAscend([m] + tail)
  {
  }

  /** Backups are made in ascending order of their slots, and so of their keys. */
  lemma {:induction false} BackupsAscend(job: Job, items: seq<ProjectedItem>, index: nat)
    ensures SlotsAscend(BackupMoves(job, items, index))
    ensures forall m :: m in BackupMoves(job, items, index) ==> m.destination.index >= index
  {
    if items != [] {
      BackupsAscend(job, items[1..], index + 1);
      if job.Replaced(items[0]) {
        SlotInFront(Move(Instance(items[0].target), Backup(job.tx, index)), BackupMoves(job, items[1..], index + 1));
      }
    }
  }

  // ----- Activations ----------------------------------------------------------------------------------------------

  /** A wanted item that has to be brought in. */
  ghost predicate ToBring(job: Job, files: Files, x: ProjectedItem)
  {
    if x.isOverride then !LeftToOwner(job, files, x) else !HadAlready(job, x)
  }

  lemma SkippedMeans(job: Job, files: Files, x: ProjectedItem)
    requires DistinctKeys(job.platform, job.previous) && Instance(x.target) !in job.env.directories
    ensures !job.Skipped(x, files) <==> ToBring(job, files, x)
  {
    if x.isOverride {
      LeftIsSkipped(job, files, x);
    } else {
      HadIsSkipped(job, files, x);
    }
  }

  /** Brought in is exactly what has to be, from the slot numbered by its position in the marker. */
  lemma ActivationSlot(job: Job, files: Files, m: Move)
    requires Validated(job, files)
    ensures m in ActivationMoves(job, files, DesiredInOrder(job))
       <==> exists i :: 0 <= i < |job.desired.items| && ToBring(job, files, job.desired.items[i])
                        && m == Move(Staged(job.tx, i), Instance(job.desired.items[i].target))
  {
    var order := DesiredInOrder(job);
    ActivationShape(job, files, order);
    if m in ActivationMoves(job, files, order) {
      var x :| x in order && x in job.desired.items && !job.Skipped(x, files) && m == ActivationMove(job, x);
      SkippedMeans(job, files, x);
    }
    if i :| 0 <= i < |job.desired.items| && ToBring(job, files, job.desired.items[i])
            && m == Move(Staged(job.tx, i), Instance(job.desired.items[i].target)) {
      var x := job.desired.items[i];
      assert x in job.desired.items;
      SkippedMeans(job, files, x);
      SamePosition(job, x, i);
    }
  }

  lemma SamePosition(job: Job, x: ProjectedItem, i: nat)
    requires DistinctKeys(job.platform, job.desired.items) && i < |job.desired.items| && job.desired.items[i] == x
    ensures PositionOf(job.desired.items, x) == i
  {
    var k := PositionOf(job.desired.items, x);
    assert job.desired.items[k] == x;
  }

  /** These moves fill places of the instance, in ascending order of their keys. */
  predicate KeysAscend(platform: Platform, moves: seq<Move>)
  {
    && (forall m :: m in moves ==> m.destination.Instance?)
    && forall i, j :: 0 <= i < j < |moves| ==>
         AtMost(platform.key(moves[i].destination.target), platform.key(moves[j].destination.target))
  }

  lemma KeyInFront(platform: Platform, m: Move, tail: seq<Move>)
    requires m.destination.Instance? && KeysAscend(platform, tail)
    requires forall n :: n in tail ==> AtMost(platform.key(m.destination.target), platform.key(n.destination.target))
    ensures KeysAscend(platform, [m] + tail)
  {
  }

  lemma {:induction false} ActivationsAscend(job: Job, files: Files, items: seq<ProjectedItem>)
    requires Ascending(job.platform, items) && forall x :: x in items ==> x in job.desired.items
    ensures KeysAscend(job.platform, ActivationMoves(job, files, items))
    ensures forall m :: m in ActivationMoves(job, files, items) ==> exists x :: x in items && x.target == m.destination.target
  {
    if items != [] {
      var rest := items[1..];
      assert items[0] in items;
      ActivationsAscend(job, files, rest);
      if !job.Skipped(items[0], files) {
        var tail := ActivationMoves(job, files, rest);
        forall n | n in tail
          ensures AtMost(job.platform.key(items[0].target), job.platform.key(n.destination.target))
        {
          var x :| x in rest && x.target == n.destination.target;
          var k :| 0 <= k < |rest| && rest[k] == x;
          assert items[k + 1] == x;
        }
        KeyInFront(job.platform, ActivationMove(job, items[0]), tail);
      }
    }
  }

  /** Activations are made in ascending order of their keys. */
  lemma ActivationsInOrder(job: Job, files: Files)
    requires DistinctKeys(job.platform, job.desired.items)
    ensures KeysAscend(job.platform, ActivationMoves(job, files, DesiredInOrder(job)))
  {
    SortedAscends(job.platform, job.desired.items);
    ActivationsAscend(job, files, DesiredInOrder(job));
  }

  /** Backups are made in ascending order of their slots. */
  lemma BackupsInOrder(job: Job)
    ensures SlotsAscend(BackupMoves(job, PreviousInOrder(job), 0))
  {
    BackupsAscend(job, PreviousInOrder(job), 0);
  }

  // ----- The steps -----------------------------------------------------------------------------------------------------

  lemma {:induction false} ShiftsAt(moves: seq<Move>)
    ensures |Shifts(moves)| == |moves|
    ensures forall i :: 0 <= i < |moves| ==> Shifts(moves)[i] == Shift(moves[i])
  {
    if moves != [] {
      ShiftsAt(moves[1..]);
    }
  }

  lemma {:induction false} CheckedAt(moves: seq<Move>)
    ensures |CheckedShifts(moves)| == 2 * |moves|
    ensures forall i :: 0 <= i < |moves| ==>
              CheckedShifts(moves)[2 * i] == Shift(moves[i]) && CheckedShifts(moves)[2 * i + 1] == Checkpoint
  {
    if moves != [] {
      CheckedAt(moves[1..]);
      var tail := CheckedShifts(moves[1..]);
      forall i | 0 <= i < |moves|
        ensures CheckedShifts(moves)[2 * i] == Shift(moves[i]) && CheckedShifts(moves)[2 * i + 1] == Checkpoint
      {
        if i > 0 {
          assert CheckedShifts(moves)[2 * i] == tail[2 * (i - 1)];
          assert CheckedShifts(moves)[2 * i + 1] == tail[2 * (i - 1) + 1];
        }
      }
    }
  }

  /** These steps are the backups, then the activations with a checkpoint each, then the commit. */
  predicate StepsOf(steps: seq<Step>, backups: seq<Move>, brought: seq<Move>, commit: Move)
  {
    && |steps| == |backups| + 2 * |brought| + 1
    && (forall i :: 0 <= i < |backups| ==> steps[i] == Shift(backups[i]))
    && (forall i :: 0 <= i < |brought| ==>
         steps[|backups| + 2 * i] == Shift(brought[i]) && steps[|backups| + 2 * i + 1] == Checkpoint)
    && steps[|backups| + 2 * |brought|] == Shift(commit)
  }

  lemma Concatenated(backups: seq<Move>, brought: seq<Move>, commit: Move)
    ensures StepsOf(Shifts(backups) + (CheckedShifts(brought) + [Shift(commit)]), backups, brought, commit)
  {
    var a, b := Shifts(backups), CheckedShifts(brought);
    var steps := a + (b + [Shift(commit)]);
    ShiftsAt(backups);
    CheckedAt(brought);
    forall i | 0 <= i < |brought|
      ensures steps[|backups| + 2 * i] == Shift(brought[i]) && steps[|backups| + 2 * i + 1] == Checkpoint
    {
      assert steps[|a| + 2 * i] == b[2 * i] && steps[|a| + 2 * i + 1] == b[2 * i + 1];
    }
  }

  /** First the backups, then the old marker's if there is one, then each activation with a checkpoint, then the commit. */
  lemma PlanSteps(job: Job, files: Files)
    ensures StepsOf(Plan(job, files),
                    BackupMoves(job, PreviousInOrder(job), 0)
                    + (if MarkerFile in files then [Move(MarkerFile, BackupMarker(job.tx))] else []),
                    ActivationMoves(job, files, DesiredInOrder(job)),
                    Move(StagedMarker(job.tx), MarkerFile))
  {
    Concatenated(Backups(job, files), ActivationMoves(job, files, DesiredInOrder(job)), CommitMove(job));
  }
}
