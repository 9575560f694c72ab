/**
 * A journal of renames over a set of files: steps run until one fails, and the journal is then
 * undone from its end. Every step may fail, and a rename may also take effect and still be
 * reported as failed, because the directories are synchronised after the rename.
 */
module Journal {
  import opened Wrappers

  newtype byte = x: int | 0 <= x < 256

  type Bytes = seq<byte>

  /** The places a projection touches; `tx` names the transaction directory. */
  datatype Path =
    | Instance(target: string)
    | MarkerFile
    | Revision(revision: string, target: string)
    | Backup(tx: string, index: nat)
    | BackupMarker(tx: string)
    | Staged(tx: string, index: nat)
    | StagedMarker(tx: string)

  predicate Within(path: Path, tx: string)
  {
    match path
    case Backup(t, _) => t == tx
    case BackupMarker(t) => t == tx
    case Staged(t, _) => t == tx
    case StagedMarker(t) => t == tx
    case _ => false
  }

  type Files = map<Path, Bytes>

  /**
   * How one file-system call ends. `Late` is an error reported after the effect: a rename has
   * happened, a copy has left `residue`, a removal has spared only `kept`.
   */
  datatype Fault = Works | Refuses | Late(residue: Bytes, kept: set<Path>)

  /** Directories in the way of files, and the outcome of the k-th call. */
  datatype Env = Env(directories: set<Path>, schedule: nat -> Fault)

  datatype World = World(files: Files, clock: nat)

  datatype Move = Move(source: Path, destination: Path)

  datatype Step = Shift(move: Move) | Checkpoint

  predicate CanMove(env: Env, files: Files, m: Move)
  {
    m.source in files && m.destination !in files && m.destination !in env.directories
  }

  function Moved(files: Files, m: Move): Files
    requires m.source in files
  {
    (files - {m.source})[m.destination := files[m.source]]
  }

  /** A rename that refuses to overwrite. */
  function Rename(env: Env, w: World, m: Move): (World, bool)
  {
    var fault := env.schedule(w.clock);
    (World(if CanMove(env, w.files, m) && !fault.Refuses? then Moved(w.files, m) else w.files, w.clock + 1),
     CanMove(env, w.files, m) && fault.Works?)
  }

  /**
   * A rename happens if the source is there, neither a file nor a directory is at the destination,
   * and the call does not refuse; it reports success only if it also works to the end.
   */
  lemma RenameMeans(env: Env, w: World, m: Move)
    ensures var (after, ok) := Rename(env, w, m);
            var possible := m.source in w.files && m.destination !in w.files && m.destination !in env.directories;
            && after.clock == w.clock + 1
            && (ok <==> possible && env.schedule(w.clock).Works?)
            && (possible && !env.schedule(w.clock).Refuses? ==>
                 m.destination in after.files && after.files[m.destination] == w.files[m.source] && m.source !in after.files)
            && (!possible || env.schedule(w.clock).Refuses? ==> after.files == w.files)
            && forall p :: p != m.source && p != m.destination ==>
                 (p in after.files <==> p in w.files) && (p in w.files ==> after.files[p] == w.files[p])
  {
  }

  predicate TakesEffectLate(env: Env, w: World, m: Move)
  {
    CanMove(env, w.files, m) && env.schedule(w.clock).Late?
  }

  datatype Status = Completed | Stopped(late: Option<Move>)

  datatype Outcome = Outcome(world: World, journal: seq<Move>, status: Status)

  /** Runs the steps; the journal lists the renames that reported success. */
  function Execute(env: Env, w: World, steps: seq<Step>, journal: seq<Move>): Outcome
    decreases |steps|
  {
    if steps == [] then Outcome(w, journal, Completed)
    else
      match steps[0]
      case Checkpoint =>
        var next := World(w.files, w.clock + 1);
        if env.schedule(w.clock).Works? then Execute(env, next, steps[1..], journal)
        else Outcome(next, journal, Stopped(None))
      case Shift(m) =>
        var (next, ok) := Rename(env, w, m);
        if ok then Execute(env, next, steps[1..], journal + [m])
        else Outcome(next, journal, Stopped(if TakesEffectLate(env, w, m) then Some(m) else None))
  }

  function Back(m: Move): Move
  {
    Move(m.destination, m.source)
  }

  /** Undoes the journal from its end; failures are remembered but do not stop it. */
  function Rollback(env: Env, w: World, journal: seq<Move>): (World, bool)
    decreases |journal|
  {
    if journal == [] then (w, true)
    else
      var last := journal[|journal| - 1];
      var (next, ok) := if last.destination in w.files then Rename(env, w, Back(last)) else (w, true);
      var (end, rest) := Rollback(env, next, journal[..|journal| - 1]);
      (end, ok && rest)
  }

  /** Removal of the transaction directory. */
  function RemoveTree(env: Env, w: World, tx: string): (World, bool)
  {
    match env.schedule(w.clock)
    case Works => (World(OutsideOf(w.files, tx), w.clock + 1), true)
    case Refuses => (World(w.files, w.clock + 1), false)
    case Late(_, kept) =>
      (World(map p | p in w.files && (p in kept || !Within(p, tx)) :: w.files[p], w.clock + 1), false)
  }

  function OutsideOf(files: Files, tx: string): Files
  {
    map p | p in files && !Within(p, tx) :: files[p]
  }

  lemma RemoveTreeOutside(env: Env, w: World, tx: string)
    ensures OutsideOf(RemoveTree(env, w, tx).0.files, tx) == OutsideOf(w.files, tx)
  {
  }

  // ----- Replaying and undoing --------------------------------------------------------------------

  /** Every move in turn finds its source there and its destination free. */
  predicate Legal(env: Env, files: Files, moves: seq<Move>)
    decreases |moves|
  {
    moves == [] || (CanMove(env, files, moves[0]) && Legal(env, Moved(files, moves[0]), moves[1..]))
  }

  function Replay(env: Env, files: Files, moves: seq<Move>): Files
    requires Legal(env, files, moves)
    decreases |moves|
  {
    if moves == [] then files else Replay(env, Moved(files, moves[0]), moves[1..])
  }

  lemma {:induction false} ReplayAppend(env: Env, files: Files, moves: seq<Move>, m: Move)
    requires Legal(env, files, moves) && CanMove(env, Replay(env, files, moves), m)
    ensures Legal(env, files, moves + [m])
    ensures Replay(env, files, moves + [m]) == Moved(Replay(env, files, moves), m)
    decreases |moves|
  {
    if moves == [] {
      assert [m][1..] == [];
    } else {
      assert (moves + [m])[1..] == moves[1..] + [m];
      ReplayAppend(env, Moved(files, moves[0]), moves[1..], m);
    }
  }

  lemma {:induction false} ReplayPrefix(env: Env, files: Files, moves: seq<Move>)
    requires moves != [] && Legal(env, files, moves)
    ensures Legal(env, files, moves[..|moves| - 1])
    ensures CanMove(env, Replay(env, files, moves[..|moves| - 1]), moves[|moves| - 1])
    ensures Replay(env, files, moves) == Moved(Replay(env, files, moves[..|moves| - 1]), moves[|moves| - 1])
    decreases |moves|
  {
    if |moves| > 1 {
      var rest := moves[1..];
      ReplayPrefix(env, Moved(files, moves[0]), rest);
      assert moves[..|moves| - 1][1..] == rest[..|rest| - 1];
    }
  }

  /** The journal of a run replays to its files, plus the one rename that was reported late. */
  ghost predicate Explains(env: Env, files: Files, o: Outcome)
  {
    && Legal(env, files, o.journal)
    && match o.status
       case Stopped(Some(m)) =>
         && CanMove(env, Replay(env, files, o.journal), m)
         && o.world.files == Moved(Replay(env, files, o.journal), m)
       case _ => o.world.files == Replay(env, files, o.journal)
  }

  lemma {:induction false} ExecuteExplained(env: Env, files: Files, w: World, steps: seq<Step>, journal: seq<Move>)
    requires Legal(env, files, journal) && w.files == Replay(env, files, journal)
    ensures Explains(env, files, Execute(env, w, steps, journal))
    decreases |steps|
  {
    if steps != [] {
      match steps[0]
      case Checkpoint =>
        ExecuteExplained(env, files, World(w.files, w.clock + 1), steps[1..], journal);
      case Shift(m) =>
        var (next, ok) := Rename(env, w, m);
        if ok {
          ReplayAppend(env, files, journal, m);
          ExecuteExplained(env, files, next, steps[1..], journal + [m]);
        }
    }
  }

  lemma MoveThenBack(files: Files, m: Move)
    requires m.source in files && m.destination !in files
    ensures m.destination in Moved(files, m) && m.source !in Moved(files, m)
    ensures Moved(Moved(files, m), Back(m)) == files
  {
  }

  /** No undo ever meets an occupied place, and one that reports success restores the files exactly. */
  lemma {:induction false} RollbackRestores(env: Env, files: Files, w: World, journal: seq<Move>)
    requires Legal(env, files, journal) && w.files == Replay(env, files, journal)
    requires forall m :: m in journal ==> m.source !in env.directories
    ensures Rollback(env, w, journal).1 ==> Rollback(env, w, journal).0.files == files
    ensures NoFaultFrom(env, w.clock) ==> Rollback(env, w, journal).1
    decreases |journal|
  {
    if journal != [] {
      var last, prefix := journal[|journal| - 1], journal[..|journal| - 1];
      ReplayPrefix(env, files, journal);
      MoveThenBack(Replay(env, files, prefix), last);
      var (next, ok) := Rename(env, w, Back(last));
      if ok {
        RollbackRestores(env, files, next, prefix);
      }
    }
  }

  // ----- Moves that do not interfere ----------------------------------------------------------------

  predicate Touches(m: Move, p: Path)
  {
    m.source == p || m.destination == p
  }

  /**
   * Each place is left at most once and filled at most once, and nothing is taken from a place
   * filled earlier. A place left earlier may be filled again.
   */
  predicate Orderly(moves: seq<Move>)
  {
    forall i, j :: 0 <= i < j < |moves| ==>
      && moves[i].source != moves[j].source
      && moves[i].destination != moves[j].destination
      && moves[i].destination != moves[j].source
  }

  lemma {:induction false} ReplayUntouched(env: Env, files: Files, moves: seq<Move>, p: Path)
    requires Legal(env, files, moves)
    requires forall m :: m in moves ==> !Touches(m, p)
    ensures p in Replay(env, files, moves) <==> p in files
    ensures p in files ==> Replay(env, files, moves)[p] == files[p]
    decreases |moves|
  {
    if moves != [] {
      assert moves[0] in moves;
      ReplayUntouched(env, Moved(files, moves[0]), moves[1..], p);
    }
  }

  lemma {:induction false} RollbackUntouched(env: Env, w: World, journal: seq<Move>, p: Path)
    requires forall m :: m in journal ==> !Touches(m, p)
    ensures p in Rollback(env, w, journal).0.files <==> p in w.files
    ensures p in w.files ==> Rollback(env, w, journal).0.files[p] == w.files[p]
    decreases |journal|
  {
    if journal != [] {
      var last := journal[|journal| - 1];
      assert last in journal;
      var next := if last.destination in w.files then Rename(env, w, Back(last)).0 else w;
      RollbackUntouched(env, next, journal[..|journal| - 1], p);
    }
  }

  /** Undoing a journal is undoing its second part and then its first. */
  lemma {:induction false} RollbackSplit(env: Env, w: World, front: seq<Move>, back: seq<Move>)
    ensures var (mid, midOk) := Rollback(env, w, back);
            var (end, endOk) := Rollback(env, mid, front);
            Rollback(env, w, front + back) == (end, midOk && endOk)
    decreases |back|
  {
    if back == [] {
      assert front + back == front;
    } else {
      var last := back[|back| - 1];
      var (next, ok) := if last.destination in w.files then Rename(env, w, Back(last)) else (w, true);
      assert (front + back)[|front + back| - 1] == last;
      assert (front + back)[..|front + back| - 1] == front + back[..|back| - 1];
      RollbackSplit(env, next, front, back[..|back| - 1]);
    }
  }

  /** Undoing one rename leaves its bytes at one end or the other. */
  lemma BackKeepsBytes(env: Env, w: World, m: Move, bytes: Bytes)
    requires m.destination in w.files && w.files[m.destination] == bytes && m.source != m.destination
    ensures var end := Rollback(env, w, [m]).0.files;
            (m.source in end && end[m.source] == bytes) || (m.destination in end && end[m.destination] == bytes)
  {
    var (next, ok) := Rename(env, w, Back(m));
    assert [m][..0] == [];
    assert Rollback(env, next, []) == (next, true);
  }

  /** Where a moved file is after a rollback of whatever success: back home or still where it went. */
  lemma MovedFileSurvives(env: Env, w: World, journal: seq<Move>, k: nat, bytes: Bytes)
    requires k < |journal| && Orderly(journal)
    requires forall m :: m in journal ==> m.source != journal[k].destination
    requires journal[k].destination in w.files && w.files[journal[k].destination] == bytes
    ensures var end, m := Rollback(env, w, journal).0.files, journal[k];
            (m.source in end && end[m.source] == bytes) || (m.destination in end && end[m.destination] == bytes)
  {
    var m, front, back := journal[k], journal[..k], journal[k + 1..];
    assert journal == (front + [m]) + back;
    assert m in journal;
    RollbackSplit(env, w, front + [m], back);
    var mid := Rollback(env, w, back).0;
    RollbackSplit(env, mid, front, [m]);
    RollbackUntouched(env, w, back, m.destination);
    BackKeepsBytes(env, mid, m, bytes);
    var home := Rollback(env, mid, [m]).0;
    RollbackUntouched(env, home, front, m.source);
    RollbackUntouched(env, home, front, m.destination);
  }

  /** The files a legal, orderly journal has moved are where the journal says. */
  lemma {:induction false} ReplayDelivers(env: Env, files: Files, moves: seq<Move>, k: nat)
    requires k < |moves| && Legal(env, files, moves) && Orderly(moves)
    ensures moves[k].source in files
    ensures moves[k].destination in Replay(env, files, moves)
    ensures Replay(env, files, moves)[moves[k].destination] == files[moves[k].source]
    decreases |moves|
  {
    var m, rest, next := moves[0], moves[1..], Moved(files, moves[0]);
    if k == 0 {
      ReplayUntouched(env, next, rest, m.destination);
    } else {
      ReplayDelivers(env, next, rest, k - 1);
      assert moves[k] == rest[k - 1];
    }
  }

  /** A place that is left and never filled again ends up empty. */
  lemma {:induction false} ReplayVacates(env: Env, files: Files, moves: seq<Move>, k: nat)
    requires k < |moves| && Legal(env, files, moves)
    requires forall m :: m in moves ==> m.destination != moves[k].source
    ensures moves[k].source !in Replay(env, files, moves)
    decreases |moves|
  {
    var m, rest, next := moves[0], moves[1..], Moved(files, moves[0]);
    assert m in moves;
    if k == 0 {
      ReplayAbsent(env, next, rest, m.source);
    } else {
      assert moves[k] == rest[k - 1];
      ReplayVacates(env, next, rest, k - 1);
    }
  }

  lemma {:induction false} ReplayAbsent(env: Env, files: Files, moves: seq<Move>, p: Path)
    requires Legal(env, files, moves) && p !in files
    requires forall m :: m in moves ==> m.destination != p
    ensures p !in Replay(env, files, moves)
    decreases |moves|
  {
    if moves != [] {
      assert moves[0] in moves;
      ReplayAbsent(env, Moved(files, moves[0]), moves[1..], p);
    }
  }

  // ----- A rename that was reported late ---------------------------------------------------------------

  /**
   * When a rename took effect but was reported as failed, it is not in the journal. A rollback
   * that still reports success has undone everything else, so exactly that rename remains.
   */
  lemma {:induction false} LateRollback(env: Env, files: Files, w: World, journal: seq<Move>, late: Move)
    requires Legal(env, files, journal) && CanMove(env, Replay(env, files, journal), late)
    requires w.files == Moved(Replay(env, files, journal), late)
    requires Orderly(journal + [late])
    requires Rollback(env, w, journal).1
    ensures forall m :: m in journal ==> m.source != late.destination
    ensures late.source in files && late.destination !in files
    ensures Rollback(env, w, journal).0.files == Moved(files, late)
    decreases |journal|
  {
    if journal != [] {
      var last, prefix := journal[|journal| - 1], journal[..|journal| - 1];
      ReplayPrefix(env, files, journal);
      OrderlyWithout(journal, late);
      assert last.destination in w.files;
      assert Rename(env, w, Back(last)).1;
      MovesCommute(Replay(env, files, prefix), last, late);
      LateRollback(env, files, Rename(env, w, Back(last)).0, prefix, late);
      assert journal == prefix + [last];
    }
  }

  /**
   * If nothing fails any more and the late rename filled no place the journal had left, the
   * rollback undoes everything else.
   */
  lemma {:induction false} LateUndone(env: Env, files: Files, w: World, journal: seq<Move>, late: Move)
    requires Legal(env, files, journal) && CanMove(env, Replay(env, files, journal), late)
    requires w.files == Moved(Replay(env, files, journal), late)
    requires Orderly(journal + [late])
    requires forall m :: m in journal ==> m.source !in env.directories && m.source != late.destination
    requires NoFaultFrom(env, w.clock)
    ensures Rollback(env, w, journal).1
    decreases |journal|
  {
    if journal != [] {
      var n := |journal|;
      var last, prefix := journal[n - 1], journal[..n - 1];
      ReplayPrefix(env, files, journal);
      OrderlyWithout(journal, late);
      var next := Rename(env, w, Back(last)).0;
      assert CanMove(env, w.files, Back(last));
      MovesCommute(Replay(env, files, prefix), last, late);
      LateUndone(env, files, next, prefix, late);
    }
  }

  ghost predicate NoFaultFrom(env: Env, clock: nat)
  {
    forall k :: k >= clock ==> env.schedule(k).Works?
  }

  lemma OrderlyWithout(journal: seq<Move>, late: Move)
    requires journal != [] && Orderly(journal + [late])
    ensures Orderly(journal[..|journal| - 1] + [late])
    ensures var last := journal[|journal| - 1];
            last.source != late.source && last.destination != late.destination && last.destination != late.source
  {
    var n := |journal|;
    var all, fewer := journal + [late], journal[..n - 1] + [late];
    assert all[n - 1] == journal[n - 1] && all[n] == late;
    forall i, j | 0 <= i < j < n
      ensures fewer[i] == all[i] && fewer[j] == if j == n - 1 then all[n] else all[j]
    {
    }
  }

  /** Taking the first of two moves that do not interfere back leaves the second. */
  lemma MovesCommute(files: Files, m: Move, late: Move)
    requires m.source in files && m.destination !in files && m.source != m.destination
    requires late.source in Moved(files, m) && late.destination !in Moved(files, m)
    requires m.source != late.source && m.source != late.destination
    requires m.destination != late.destination && m.destination != late.source
    ensures m.destination in Moved(Moved(files, m), late)
    ensures late.source in files && Moved(Moved(Moved(files, m), late), Back(m)) == Moved(files, late)
  {
  }

  /**
   * When nothing fails any more, a rollback is complete exactly if no rename was late or the late
   * one filled no place the journal had left; otherwise one undo meets an occupied place.
   */
  lemma RollbackReports(env: Env, files: Files, o: Outcome)
    requires Explains(env, files, o) && NoFaultFrom(env, o.world.clock)
    requires forall m :: m in o.journal ==> m.source !in env.directories
    requires o.status.Stopped? && o.status.late.Some? ==> Orderly(o.journal + [o.status.late.value])
    ensures Rollback(env, o.world, o.journal).1
       <==> !(o.status.Stopped? && o.status.late.Some?
              && exists m :: m in o.journal && m.source == o.status.late.value.destination)
  {
    if o.status.Stopped? && o.status.late.Some? {
      if Rollback(env, o.world, o.journal).1 {
        LateRollback(env, files, o.world, o.journal, o.status.late.value);
      } else if forall m :: m in o.journal ==> m.source != o.status.late.value.destination {
        LateUndone(env, files, o.world, o.journal, o.status.late.value);
      }
    } else {
      RollbackRestores(env, files, o.world, o.journal);
    }
  }
}
