/** Choosing, per target, which override file of a modpack archive is used. */
module OverrideMerge {
  import opened Wrappers
  import opened OrderedMaps
  import opened Ordering

  const INDEX_ENTRY := "modrinth.index.json"
  const COMMON_PREFIX := "overrides/"
  const CLIENT_PREFIX := "client-overrides/"
  const SERVER_PREFIX := "server-overrides/"
  const MAX_OVERRIDE_BYTES := 536870912
  const MAX_OVERRIDES := 8192
  const MAX_TOTAL_BYTES := 4294967296

  datatype Entry = Entry(name: string, isFile: bool, size: nat)

  datatype Override = Override(index: nat, target: string, size: nat)

  datatype Ranked = Ranked(priority: nat, file: Override)

  datatype MergeError =
    | EntryUnsupported
    | TargetInvalid
    | SizeInvalid
    | TargetCollision
    | CountInvalid
    | TotalSizeInvalid

  /** The portable key of a target, and whether a target may be overridden at all. */
  datatype Naming = Naming(key: string -> string, allowed: string -> bool)

  // ----- One entry ------------------------------------------------------------------------------------------

  datatype Role = Ignored | Unsupported | Candidate(priority: nat, target: string)

  function RoleOf(e: Entry): Role
  {
    if !e.isFile || e.name == INDEX_ENTRY then Ignored
    else if COMMON_PREFIX <= e.name then Candidate(0, e.name[|COMMON_PREFIX|..])
    else if CLIENT_PREFIX <= e.name then Candidate(1, e.name[|CLIENT_PREFIX|..])
    else if SERVER_PREFIX <= e.name then Ignored
    else Unsupported
  }

  function EntryFault(naming: Naming, e: Entry): Option<MergeError>
  {
    match RoleOf(e)
    case Ignored => None
    case Unsupported => Some(EntryUnsupported)
    case Candidate(_, target) =>
      if !naming.allowed(target) then Some(TargetInvalid)
      else if e.size > MAX_OVERRIDE_BYTES then Some(SizeInvalid)
      else None
  }

  function KeyOf(naming: Naming, e: Entry): string
    requires RoleOf(e).Candidate?
  {
    naming.key(RoleOf(e).target)
  }

  type Selection = map<string, Ranked>

  /** What one candidate does to the selection so far. */
  function Select(naming: Naming, selected: Selection, e: Entry, index: nat): Result<Selection, MergeError>
    requires RoleOf(e).Candidate?
  {
    var key, priority := KeyOf(naming, e), RoleOf(e).priority;
    var candidate := Override(index, RoleOf(e).target, e.size);
    if key in selected && (selected[key].file.target != candidate.target || selected[key].priority == priority)
    then Failure(TargetCollision)
    else if key in selected && selected[key].priority > priority then Success(selected)
    else Success(selected[key := Ranked(priority, candidate)])
  }

  function MergeStep(naming: Naming, selected: Selection, e: Entry, index: nat): Result<Selection, MergeError>
  {
    if EntryFault(naming, e).Some? then Failure(EntryFault(naming, e).value)
    else if RoleOf(e).Ignored? then Success(selected)
    else Select(naming, selected, e, index)
  }

  /** The selection after all entries, in archive order. */
  function Merge(naming: Naming, entries: seq<Entry>): Result<Selection, MergeError>
  {
    if entries == [] then Success(map[])
    else
      match Merge(naming, entries[..|entries| - 1])
      case Failure(error) => Failure(error)
      case Success(selected) => MergeStep(naming, selected, entries[|entries| - 1], |entries| - 1)
  }

  lemma {:induction false} MergeFails(naming: Naming, entries: seq<Entry>, n: nat)
    requires n <= |entries| && Merge(naming, entries[..n]).Failure?
    ensures Merge(naming, entries) == Merge(naming, entries[..n])
    decreases |entries| - n
  {
    if n == |entries| {
      assert entries[..n] == entries;
    } else {
      assert entries[..n + 1][..n] == entries[..n];
      MergeFails(naming, entries, n + 1);
    }
  }

  // ----- What the merge means -----------------------------------------------------------------------------------

  /** Archive entries have different names. */
  predicate DistinctNames(entries: seq<Entry>)
  {
    forall i, j :: 0 <= i < j < |entries| ==> entries[i].name != entries[j].name
  }

  predicate Faultless(naming: Naming, entries: seq<Entry>)
  {
    forall e :: e in entries ==> EntryFault(naming, e).None?
  }

  predicate SameKey(naming: Naming, d: Entry, e: Entry)
  {
    RoleOf(d).Candidate? && RoleOf(e).Candidate? && KeyOf(naming, d) == KeyOf(naming, e)
  }

  /** Two relevant entries with one key spell their targets alike. */
  predicate OneSpelling(naming: Naming, entries: seq<Entry>)
  {
    forall d, e :: d in entries && e in entries && SameKey(naming, d, e) ==> RoleOf(d).target == RoleOf(e).target
  }

  /** The entry a key is taken from: of the highest priority there is. */
  predicate Wins(naming: Naming, entries: seq<Entry>, key: string, e: Entry)
  {
    && e in entries && RoleOf(e).Candidate? && KeyOf(naming, e) == key
    && forall d :: d in entries && RoleOf(d).Candidate? && KeyOf(naming, d) == key ==>
         RoleOf(d).priority <= RoleOf(e).priority
  }

  predicate Describes(ranked: Ranked, e: Entry)
  {
    RoleOf(e) == Candidate(ranked.priority, ranked.file.target) && ranked.file.size == e.size
  }

  /** Per key, exactly the winning entry is selected. */
  ghost predicate SelectsWinners(naming: Naming, entries: seq<Entry>, selected: Selection)
  {
    && (forall e :: e in entries && RoleOf(e).Candidate? ==> KeyOf(naming, e) in selected)
    && (forall k :: k in selected ==>
         && selected[k].file.index < |entries|
         && Describes(selected[k], entries[selected[k].file.index])
         && Wins(naming, entries, k, entries[selected[k].file.index]))
  }

  lemma PriorityAndTargetGiveName(d: Entry, e: Entry)
    requires RoleOf(d).Candidate? && RoleOf(d) == RoleOf(e)
    ensures d.name == e.name
  {
    if COMMON_PREFIX <= d.name {
      assert d.name == COMMON_PREFIX + d.name[|COMMON_PREFIX|..];
      assert CLIENT_PREFIX <= e.name ==> e.name[0] == 'c';
      assert e.name == COMMON_PREFIX + e.name[|COMMON_PREFIX|..];
    } else {
      assert d.name == CLIENT_PREFIX + d.name[|CLIENT_PREFIX|..];
      assert e.name == CLIENT_PREFIX + e.name[|CLIENT_PREFIX|..];
    }
  }

  // ----- Ties -----------------------------------------------------------------------------------------------------

  /** Two relevant entries of one key and one priority. */
  predicate SameRank(naming: Naming, d: Entry, e: Entry)
  {
    SameKey(naming, d, e) && RoleOf(d).priority == RoleOf(e).priority
  }

  predicate IsClient(e: Entry)
  {
    RoleOf(e).Candidate? && RoleOf(e).priority == 1
  }

  predicate ClientBefore(naming: Naming, entries: seq<Entry>, j: nat)
    requires j < |entries|
  {
    exists k :: 0 <= k < j && IsClient(entries[k]) && SameKey(naming, entries[k], entries[j])
  }

  /** An earlier entry has the rank of this one, and no earlier client override settles the key. */
  predicate Tie(naming: Naming, entries: seq<Entry>, j: nat)
    requires j < |entries|
  {
    && (exists i :: 0 <= i < j && SameRank(naming, entries[i], entries[j]))
    && (IsClient(entries[j]) || !ClientBefore(naming, entries, j))
  }

  predicate NoTies(naming: Naming, entries: seq<Entry>, n: nat)
    requires n <= |entries|
  {
    forall j :: 0 <= j < n ==> !Tie(naming, entries, j)
  }

  lemma SelectKeepsWinners(naming: Naming, entries: seq<Entry>, n: nat, selected: Selection, next: Selection)
    requires n < |entries| && SelectsWinners(naming, entries[..n], selected)
    requires RoleOf(entries[n]).Candidate? && Select(naming, selected, entries[n], n) == Success(next)
    ensures SelectsWinners(naming, entries[..n + 1], next)
  {
    forall k | k in next
      ensures Chosen(naming, entries, n + 1, next[k], k)
    {
      KeepsWinner(naming, entries, n, selected, next, k);
    }
    KeysKept(naming, entries, n, selected, next);
    ChosenWin(naming, entries, n + 1, next);
  }

  /** The choice for this key is one of the first `n` entries, and the winning one. */
  ghost predicate Chosen(naming: Naming, entries: seq<Entry>, n: nat, choice: Ranked, key: string)
    requires n <= |entries|
  {
    && choice.file.index < n && Describes(choice, entries[choice.file.index])
    && Wins(naming, entries[..n], key, entries[choice.file.index])
  }

  lemma ChosenWin(naming: Naming, entries: seq<Entry>, n: nat, selected: Selection)
    requires n <= |entries| && forall k :: k in selected ==> Chosen(naming, entries, n, selected[k], k)
    requires forall e :: e in entries[..n] && RoleOf(e).Candidate? ==> KeyOf(naming, e) in selected
    ensures SelectsWinners(naming, entries[..n], selected)
  {
  }

  lemma KeysKept(naming: Naming, entries: seq<Entry>, n: nat, selected: Selection, next: Selection)
    requires n < |entries| && SelectsWinners(naming, entries[..n], selected)
    requires RoleOf(entries[n]).Candidate? && Select(naming, selected, entries[n], n) == Success(next)
    ensures forall e :: e in entries[..n + 1] && RoleOf(e).Candidate? ==> KeyOf(naming, e) in next
  {
    assert entries[..n + 1] == entries[..n] + [entries[n]];
  }

  lemma KeepsWinner(naming: Naming, entries: seq<Entry>, n: nat, selected: Selection, next: Selection, k: string)
    requires n < |entries| && SelectsWinners(naming, entries[..n], selected)
    requires RoleOf(entries[n]).Candidate? && Select(naming, selected, entries[n], n) == Success(next) && k in next
    ensures Chosen(naming, entries, n + 1, next[k], k)
  {
    var e, before := entries[n], entries[..n];
    SelectMeans(naming, selected, e, n, next, k);
    if k !in selected {
      FirstWins(naming, before, e, selected);
    } else {
      var i := Holder(naming, entries, n, selected, k);
      if next[k] == selected[k] {
        OldWins(naming, before, e, k, entries[i]);
      } else {
        NewWins(naming, before, e, entries[i]);
      }
    }
    assert entries[..n + 1] == before + [e];
  }

  /** A key has its old choice, or the entry that is at least as high. */
  lemma SelectMeans(naming: Naming, selected: Selection, e: Entry, n: nat, next: Selection, k: string)
    requires RoleOf(e).Candidate? && Select(naming, selected, e, n) == Success(next) && k in next
    ensures var chosen := Ranked(RoleOf(e).priority, Override(n, RoleOf(e).target, e.size));
            if k !in selected then k == KeyOf(naming, e) && next[k] == chosen
            else if KeyOf(naming, e) == k && selected[k].priority <= RoleOf(e).priority then next[k] == chosen
            else next[k] == selected[k]
  {
  }

  lemma OldWins(naming: Naming, before: seq<Entry>, e: Entry, key: string, w: Entry)
    requires Wins(naming, before, key, w) && RoleOf(e).Candidate?
    requires KeyOf(naming, e) == key ==> RoleOf(e).priority <= RoleOf(w).priority
    ensures Wins(naming, before + [e], key, w)
  {
  }

  lemma NewWins(naming: Naming, before: seq<Entry>, e: Entry, w: Entry)
    requires RoleOf(e).Candidate? && Wins(naming, before, KeyOf(naming, e), w)
    requires RoleOf(w).priority <= RoleOf(e).priority
    ensures Wins(naming, before + [e], KeyOf(naming, e), e)
  {
  }

  lemma FirstWins(naming: Naming, before: seq<Entry>, e: Entry, selected: Selection)
    requires SelectsWinners(naming, before, selected) && RoleOf(e).Candidate? && KeyOf(naming, e) !in selected
    ensures Wins(naming, before + [e], KeyOf(naming, e), e)
  {
  }

  /** The entry a selected key was taken from, with its position. */
  lemma Holder(naming: Naming, entries: seq<Entry>, n: nat, selected: Selection, key: string) returns (i: nat)
    requires n <= |entries| && SelectsWinners(naming, entries[..n], selected) && key in selected
    ensures i < n && Describes(selected[key], entries[i]) && Wins(naming, entries[..n], key, entries[i])
  {
    i := selected[key].file.index;
    assert entries[..n][i] == entries[i];
  }

  lemma TopRankTies(naming: Naming, entries: seq<Entry>, n: nat, i: nat)
    requires i < n < |entries| && SameRank(naming, entries[i], entries[n])
    requires Wins(naming, entries[..n], KeyOf(naming, entries[n]), entries[i])
    ensures Tie(naming, entries, n)
  {
    if k :| 0 <= k < n && IsClient(entries[k]) && SameKey(naming, entries[k], entries[n]) {
      assert entries[..n][k] == entries[k];
    }
  }

  lemma TwoSpellings(naming: Naming, entries: seq<Entry>, n: nat, i: nat)
    requires i < n < |entries| && SameKey(naming, entries[i], entries[n])
    requires RoleOf(entries[i]).target != RoleOf(entries[n]).target
    ensures !OneSpelling(naming, entries[..n + 1])
  {
    assert entries[..n + 1][i] == entries[i] && entries[..n + 1][n] == entries[n];
  }

  /** A collision is a second spelling or a tie. */
  lemma CollisionMeans(naming: Naming, entries: seq<Entry>, n: nat, selected: Selection)
    requires n < |entries| && SelectsWinners(naming, entries[..n], selected)
    requires RoleOf(entries[n]).Candidate? && Select(naming, selected, entries[n], n).Failure?
    ensures !OneSpelling(naming, entries[..n + 1]) || Tie(naming, entries, n)
  {
    var i := Holder(naming, entries, n, selected, KeyOf(naming, entries[n]));
    if RoleOf(entries[i]).target == RoleOf(entries[n]).target {
      TopRankTies(naming, entries, n, i);
    } else {
      TwoSpellings(naming, entries, n, i);
    }
  }

  /** Where the loop goes on, there is no tie. */
  lemma NoCollisionMeans(naming: Naming, entries: seq<Entry>, n: nat, selected: Selection)
    requires n < |entries| && SelectsWinners(naming, entries[..n], selected)
    requires RoleOf(entries[n]).Candidate? && Select(naming, selected, entries[n], n).Success?
    ensures !Tie(naming, entries, n)
  {
    var e := entries[n];
    if i :| 0 <= i < n && SameRank(naming, entries[i], e) {
      assert entries[..n][i] == entries[i];
      var w := Holder(naming, entries, n, selected, KeyOf(naming, e));
      PrioritiesAreTwo(entries[w]);
      PrioritiesAreTwo(e);
      assert RoleOf(entries[i]).priority <= RoleOf(entries[w]).priority;
      assert IsClient(entries[w]) && SameKey(naming, entries[w], e);
    }
  }

  lemma PrioritiesAreTwo(e: Entry)
    requires RoleOf(e).Candidate?
    ensures RoleOf(e).priority == 0 || RoleOf(e).priority == 1
  {
  }

  lemma NextSpelling(naming: Naming, entries: seq<Entry>, n: nat, selected: Selection)
    requires n < |entries| && SelectsWinners(naming, entries[..n], selected) && OneSpelling(naming, entries[..n])
    requires RoleOf(entries[n]).Candidate? && Select(naming, selected, entries[n], n).Success?
    ensures OneSpelling(naming, entries[..n + 1])
  {
    var e := entries[n];
    if KeyOf(naming, e) in selected {
      var i := Holder(naming, entries, n, selected, KeyOf(naming, e));
      SpelledAlike(naming, entries[..n], e, entries[i]);
    } else {
      SpelledFirst(naming, entries[..n], e, selected);
    }
    assert entries[..n + 1] == entries[..n] + [e];
  }

  lemma SpelledAlike(naming: Naming, before: seq<Entry>, e: Entry, w: Entry)
    requires OneSpelling(naming, before) && w in before && SameKey(naming, w, e) && RoleOf(w).target == RoleOf(e).target
    ensures OneSpelling(naming, before + [e])
  {
    forall d | d in before && SameKey(naming, d, e)
      ensures RoleOf(d).target == RoleOf(e).target
    {
      assert SameKey(naming, d, w);
    }
  }

  lemma SpelledFirst(naming: Naming, before: seq<Entry>, e: Entry, selected: Selection)
    requires OneSpelling(naming, before) && SelectsWinners(naming, before, selected)
    requires RoleOf(e).Candidate? && KeyOf(naming, e) !in selected
    ensures OneSpelling(naming, before + [e])
  {
  }

  /** The first `n` entries merge exactly if nothing is wrong with them, and then to the winners. */
  ghost predicate Means(naming: Naming, entries: seq<Entry>, n: nat, merged: Result<Selection, MergeError>)
    requires n <= |entries|
  {
    && (merged.Success?
        <==> Faultless(naming, entries[..n]) && OneSpelling(naming, entries[..n]) && NoTies(naming, entries, n))
    && (merged.Success? ==> SelectsWinners(naming, entries[..n], merged.value))
  }

  /** The loop, entry by entry: it goes on exactly while nothing is wrong, and holds the winners. */
  lemma {:induction false} MergeMeaning(naming: Naming, entries: seq<Entry>, n: nat)
    requires n <= |entries|
    ensures Means(naming, entries, n, Merge(naming, entries[..n]))
    decreases n
  {
    if n > 0 {
      assert entries[..n][..n - 1] == entries[..n - 1];
      MergeMeaning(naming, entries, n - 1);
      var merged := Merge(naming, entries[..n - 1]);
      if merged.Success? {
        MergeNext(naming, entries, n - 1, merged.value);
      } else {
        FailureMeans(naming, entries, n - 1);
      }
    }
  }

  lemma FailureMeans(naming: Naming, entries: seq<Entry>, n: nat)
    requires n < |entries|
    requires !(Faultless(naming, entries[..n]) && OneSpelling(naming, entries[..n]) && NoTies(naming, entries, n))
    ensures !(Faultless(naming, entries[..n + 1]) && OneSpelling(naming, entries[..n + 1]) && NoTies(naming, entries, n + 1))
  {
    assert forall d :: d in entries[..n] ==> d in entries[..n + 1];
  }

  lemma FaultlessNext(naming: Naming, entries: seq<Entry>, n: nat)
    requires n < |entries|
    ensures Faultless(naming, entries[..n + 1]) <==> Faultless(naming, entries[..n]) && EntryFault(naming, entries[n]).None?
  {
    assert entries[..n + 1] == entries[..n] + [entries[n]];
  }

  lemma MergeNext(naming: Naming, entries: seq<Entry>, n: nat, selected: Selection)
    requires n < |entries| && Means(naming, entries, n, Success(selected))
    ensures Means(naming, entries, n + 1, MergeStep(naming, selected, entries[n], n))
  {
    if EntryFault(naming, entries[n]).None? {
      if RoleOf(entries[n]).Candidate? {
        CandidateMeaning(naming, entries, n, selected);
      } else {
        IgnoredMeaning(naming, entries, n, selected);
      }
    }
    MeansNext(naming, entries, n, MergeStep(naming, selected, entries[n], n));
  }

  lemma MeansNext(naming: Naming, entries: seq<Entry>, n: nat, next: Result<Selection, MergeError>)
    requires n < |entries|
    requires Faultless(naming, entries[..n]) && NoTies(naming, entries, n)
    requires next.Success?
        <==> EntryFault(naming, entries[n]).None? && OneSpelling(naming, entries[..n + 1]) && !Tie(naming, entries, n)
    requires next.Success? ==> SelectsWinners(naming, entries[..n + 1], next.value)
    ensures Means(naming, entries, n + 1, next)
  {
    FaultlessNext(naming, entries, n);
    NoTiesNext(naming, entries, n);
  }

  lemma NoTiesNext(naming: Naming, entries: seq<Entry>, n: nat)
    requires n < |entries|
    ensures NoTies(naming, entries, n + 1) <==> NoTies(naming, entries, n) && !Tie(naming, entries, n)
  {
  }

  lemma CandidateMeaning(naming: Naming, entries: seq<Entry>, n: nat, selected: Selection)
    requires n < |entries| && SelectsWinners(naming, entries[..n], selected)
    requires OneSpelling(naming, entries[..n]) && RoleOf(entries[n]).Candidate?
    ensures var next := Select(naming, selected, entries[n], n);
            && (next.Success? <==> OneSpelling(naming, entries[..n + 1]) && !Tie(naming, entries, n))
            && (next.Success? ==> SelectsWinners(naming, entries[..n + 1], next.value))
  {
    var next := Select(naming, selected, entries[n], n);
    if next.Success? {
      NextSpelling(naming, entries, n, selected);
      NoCollisionMeans(naming, entries, n, selected);
      SelectKeepsWinners(naming, entries, n, selected, next.value);
    } else {
      CollisionMeans(naming, entries, n, selected);
    }
  }

  lemma IgnoredMeaning(naming: Naming, entries: seq<Entry>, n: nat, selected: Selection)
    requires n < |entries| && SelectsWinners(naming, entries[..n], selected) && OneSpelling(naming, entries[..n])
    requires !RoleOf(entries[n]).Candidate?
    ensures OneSpelling(naming, entries[..n + 1]) && SelectsWinners(naming, entries[..n + 1], selected)
    ensures !Tie(naming, entries, n)
  {
    var before, after := entries[..n], entries[..n + 1];
    assert after == before + [entries[n]];
    forall k | k in selected
      ensures Wins(naming, after, k, after[selected[k].file.index])
    {
      assert Wins(naming, before, k, before[selected[k].file.index]);
    }
  }

  /**
   * For every list of entries the merge fails exactly when an entry is not acceptable, two relevant
   * entries spell one key differently, or two tie; otherwise each key is taken from the client
   * override if there is one, and from the common override if not.
   */
  lemma MergeExactly(naming: Naming, entries: seq<Entry>)
    ensures Merge(naming, entries).Success?
       <==> Faultless(naming, entries) && OneSpelling(naming, entries) && NoTies(naming, entries, |entries|)
    ensures Merge(naming, entries).Success? ==> SelectsWinners(naming, entries, Merge(naming, entries).value)
  {
    assert entries[..|entries|] == entries;
    MergeMeaning(naming, entries, |entries|);
  }

  lemma DistinctNamesNeverTie(naming: Naming, entries: seq<Entry>)
    requires DistinctNames(entries) && OneSpelling(naming, entries)
    ensures NoTies(naming, entries, |entries|)
  {
    forall j | 0 <= j < |entries|
      ensures !Tie(naming, entries, j)
    {
      if i :| 0 <= i < j && SameRank(naming, entries[i], entries[j]) {
        assert entries[i] in entries && entries[j] in entries;
        PriorityAndTargetGiveName(entries[i], entries[j]);
      }
    }
  }

  /** With distinct names there are no ties, and only unacceptable entries and spellings count. */
  lemma MergeIsPriorityMaximum(naming: Naming, entries: seq<Entry>)
    requires DistinctNames(entries)
    ensures Merge(naming, entries).Success? <==> Faultless(naming, entries) && OneSpelling(naming, entries)
    ensures Merge(naming, entries).Success? ==> SelectsWinners(naming, entries, Merge(naming, entries).value)
  {
    MergeExactly(naming, entries);
    if OneSpelling(naming, entries) {
      DistinctNamesNeverTie(naming, entries);
    }
  }

  // ----- Archive order ----------------------------------------------------------------------------------------------

  /** Two different members of a collection, or one that occurs twice. */
  predicate Pair(all: multiset<Entry>, d: Entry, e: Entry)
  {
    d in all && e in all && (d != e || all[d] > 1)
  }

  predicate HasClient(naming: Naming, all: multiset<Entry>, e: Entry)
  {
    exists c :: c in all && IsClient(c) && SameKey(naming, c, e)
  }

  ghost predicate TwoClients(naming: Naming, all: multiset<Entry>)
  {
    exists d, e :: Pair(all, d, e) && SameRank(naming, d, e) && IsClient(d)
  }

  /** Two common overrides of one key, and no client override that could settle it. */
  ghost predicate TwoCommonsAlone(naming: Naming, all: multiset<Entry>)
  {
    exists d, e :: Pair(all, d, e) && SameRank(naming, d, e) && !IsClient(d) && !HasClient(naming, all, d)
  }

  ghost predicate TwoCommonsBesideClient(naming: Naming, all: multiset<Entry>)
  {
    exists d, e :: Pair(all, d, e) && SameRank(naming, d, e) && !IsClient(d) && HasClient(naming, all, d)
  }

  /** All that is wrong with these entries, if anything, is two common overrides beside a client override. */
  ghost predicate OrderSensitive(naming: Naming, entries: seq<Entry>)
  {
    var all := multiset(entries);
    && Faultless(naming, entries) && OneSpelling(naming, entries)
    && !TwoClients(naming, all) && !TwoCommonsAlone(naming, all) && TwoCommonsBesideClient(naming, all)
  }

  lemma PairStands(entries: seq<Entry>, d: Entry, e: Entry) returns (i: nat, j: nat)
    requires Pair(multiset(entries), d, e)
    ensures i < |entries| && j < |entries| && i != j && entries[i] == d && entries[j] == e
  {
    if d == e {
      i, j := StandsTwice(entries, d);
    } else {
      i :| 0 <= i < |entries| && entries[i] == d;
      j :| 0 <= j < |entries| && entries[j] == e;
    }
  }

  lemma PositionsPair(entries: seq<Entry>, i: nat, j: nat)
    requires i < j < |entries|
    ensures Pair(multiset(entries), entries[i], entries[j])
  {
    if entries[i] == entries[j] {
      TwoPositions(entries, i, j);
    }
  }

  /** Two client overrides, or two common ones alone, tie in every order. */
  lemma AlwaysTies(naming: Naming, entries: seq<Entry>)
    requires TwoClients(naming, multiset(entries)) || TwoCommonsAlone(naming, multiset(entries))
    ensures !NoTies(naming, entries, |entries|)
  {
    var d, e :| Pair(multiset(entries), d, e) && SameRank(naming, d, e)
                && (IsClient(d) || !HasClient(naming, multiset(entries), d));
    var i, j := PairStands(entries, d, e);
    OneKeyOneClient(naming, multiset(entries), d, e);
    if i < j {
      LaterTies(naming, entries, i, j);
    } else {
      LaterTies(naming, entries, j, i);
    }
  }

  lemma OneKeyOneClient(naming: Naming, all: multiset<Entry>, d: Entry, e: Entry)
    requires SameKey(naming, d, e)
    ensures HasClient(naming, all, d) <==> HasClient(naming, all, e)
  {
    if c :| c in all && IsClient(c) && SameKey(naming, c, d) {
      assert SameKey(naming, c, e);
    }
    if c :| c in all && IsClient(c) && SameKey(naming, c, e) {
      assert SameKey(naming, c, d);
    }
  }

  lemma LaterTies(naming: Naming, entries: seq<Entry>, i: nat, j: nat)
    requires i < j < |entries| && SameRank(naming, entries[i], entries[j])
    requires IsClient(entries[j]) || !HasClient(naming, multiset(entries), entries[j])
    ensures Tie(naming, entries, j)
  {
    if k :| 0 <= k < j && IsClient(entries[k]) && SameKey(naming, entries[k], entries[j]) {
      assert entries[k] in multiset(entries);
    }
  }

  /** Without any pair of one rank nothing ties in any order. */
  lemma NeverTies(naming: Naming, entries: seq<Entry>)
    requires !TwoClients(naming, multiset(entries)) && !TwoCommonsAlone(naming, multiset(entries))
    requires !TwoCommonsBesideClient(naming, multiset(entries))
    ensures NoTies(naming, entries, |entries|)
  {
    forall j | 0 <= j < |entries|
      ensures !Tie(naming, entries, j)
    {
      if i :| 0 <= i < j && SameRank(naming, entries[i], entries[j]) {
        PositionsPair(entries, i, j);
      }
    }
  }

  lemma SameAcceptance(naming: Naming, entries: seq<Entry>, reordered: seq<Entry>)
    requires multiset(entries) == multiset(reordered)
    ensures Faultless(naming, entries) <==> Faultless(naming, reordered)
    ensures OneSpelling(naming, entries) <==> OneSpelling(naming, reordered)
  {
    SameElements(entries, reordered);
  }

  lemma SameOutcome(naming: Naming, entries: seq<Entry>, reordered: seq<Entry>)
    requires multiset(entries) == multiset(reordered) && !OrderSensitive(naming, entries)
    ensures Merge(naming, entries).Success? <==> Merge(naming, reordered).Success?
  {
    MergeExactly(naming, entries);
    MergeExactly(naming, reordered);
    SameAcceptance(naming, entries, reordered);
    if TwoClients(naming, multiset(entries)) || TwoCommonsAlone(naming, multiset(entries)) {
      AlwaysTies(naming, entries);
      AlwaysTies(naming, reordered);
    } else if !TwoCommonsBesideClient(naming, multiset(entries)) {
      NeverTies(naming, entries);
      NeverTies(naming, reordered);
    }
  }

  predicate SameChoice(r: Ranked, s: Ranked)
  {
    r.priority == s.priority && r.file.target == s.file.target && r.file.size == s.file.size
  }

  /** Two winners of one key, of whatever orders, are one entry. */
  lemma WinnerUnique(naming: Naming, entries: seq<Entry>, reordered: seq<Entry>, key: string, d: Entry, e: Entry)
    requires multiset(entries) == multiset(reordered) && NoTies(naming, entries, |entries|)
    requires Wins(naming, entries, key, d) && Wins(naming, reordered, key, e)
    ensures d == e
  {
    SameElements(entries, reordered);
    if d != e {
      assert SameRank(naming, d, e) && Pair(multiset(entries), d, e);
      if !IsClient(d) && HasClient(naming, multiset(entries), d) {
        ClientOutranks(naming, entries, key, d);
      }
      AlwaysTies(naming, entries);
    }
  }

  lemma ClientOutranks(naming: Naming, entries: seq<Entry>, key: string, d: Entry)
    requires Wins(naming, entries, key, d) && HasClient(naming, multiset(entries), d)
    ensures IsClient(d)
  {
    var c :| c in multiset(entries) && IsClient(c) && SameKey(naming, c, d);
    assert c in entries;
    PrioritiesAreTwo(d);
  }

  lemma SameKeys(naming: Naming, entries: seq<Entry>, reordered: seq<Entry>, m: Selection, n: Selection, k: string)
    requires multiset(entries) == multiset(reordered) && k in m
    requires SelectsWinners(naming, entries, m) && SelectsWinners(naming, reordered, n)
    ensures k in n
  {
    SameElements(entries, reordered);
    assert entries[m[k].file.index] in entries;
  }

  lemma SameWinners(naming: Naming, entries: seq<Entry>, reordered: seq<Entry>, m: Selection, n: Selection)
    requires multiset(entries) == multiset(reordered) && NoTies(naming, entries, |entries|)
    requires SelectsWinners(naming, entries, m) && SelectsWinners(naming, reordered, n)
    ensures m.Keys == n.Keys && forall k :: k in m ==> SameChoice(m[k], n[k])
  {
    forall k
      ensures k in m <==> k in n
    {
      if k in m {
        SameKeys(naming, entries, reordered, m, n, k);
      }
      if k in n {
        SameKeys(naming, reordered, entries, n, m, k);
      }
    }
    forall k | k in m
      ensures SameChoice(m[k], n[k])
    {
      WinnerUnique(naming, entries, reordered, k, entries[m[k].file.index], reordered[n[k].file.index]);
    }
  }

  /**
   * The same entries in another order fail alike, unless they are order sensitive; and wherever
   * both orders succeed they give the same choice for every key.
   */
  lemma OrderDoesNotMatter(naming: Naming, entries: seq<Entry>, reordered: seq<Entry>)
    requires multiset(entries) == multiset(reordered)
    ensures !OrderSensitive(naming, entries) ==> (Merge(naming, entries).Success? <==> Merge(naming, reordered).Success?)
    ensures Merge(naming, entries).Success? && Merge(naming, reordered).Success? ==>
              var m, n := Merge(naming, entries).value, Merge(naming, reordered).value;
              m.Keys == n.Keys && forall k :: k in m ==> SameChoice(m[k], n[k])
  {
    if !OrderSensitive(naming, entries) {
      SameOutcome(naming, entries, reordered);
    }
    MergeExactly(naming, entries);
    MergeExactly(naming, reordered);
    if Merge(naming, entries).Success? && Merge(naming, reordered).Success? {
      SameWinners(naming, entries, reordered, Merge(naming, entries).value, Merge(naming, reordered).value);
    }
  }

  // ----- Two orders with different outcomes ---------------------------------------------------------------------------

  function Clients(entries: seq<Entry>): (r: seq<Entry>)
    ensures forall e :: e in r ==> IsClient(e)
  {
    if entries == [] then []
    else if IsClient(entries[0]) then [entries[0]] + Clients(entries[1..])
    else Clients(entries[1..])
  }

  function Others(entries: seq<Entry>): (r: seq<Entry>)
    ensures forall e :: e in r ==> !IsClient(e)
  {
    if entries == [] then []
    else if IsClient(entries[0]) then Others(entries[1..])
    else [entries[0]] + Others(entries[1..])
  }

  lemma {:induction false} Parted(entries: seq<Entry>)
    ensures multiset(Clients(entries)) + multiset(Others(entries)) == multiset(entries)
  {
    if entries != [] {
      Parted(entries[1..]);
      assert entries == [entries[0]] + entries[1..];
    }
  }

  /** With the client overrides first every pair of common ones is settled. */
  lemma ClientsFirst(naming: Naming, clients: seq<Entry>, others: seq<Entry>)
    requires (forall e :: e in clients ==> IsClient(e)) && (forall e :: e in others ==> !IsClient(e))
    requires !TwoClients(naming, multiset(clients + others)) && !TwoCommonsAlone(naming, multiset(clients + others))
    ensures NoTies(naming, clients + others, |clients + others|)
  {
    var entries := clients + others;
    forall j | 0 <= j < |entries|
      ensures !Tie(naming, entries, j)
    {
      if i :| 0 <= i < j && SameRank(naming, entries[i], entries[j]) {
        PositionsPair(entries, i, j);
        assert HasClient(naming, multiset(entries), entries[i]);
        ClientInFront(naming, clients, others, i, j);
      }
    }
  }

  lemma ClientInFront(naming: Naming, clients: seq<Entry>, others: seq<Entry>, i: nat, j: nat)
    requires i < j < |clients + others| && SameRank(naming, (clients + others)[i], (clients + others)[j])
    requires (forall e :: e in clients ==> IsClient(e)) && (forall e :: e in others ==> !IsClient(e))
    requires !IsClient((clients + others)[i]) && HasClient(naming, multiset(clients + others), (clients + others)[i])
    ensures ClientBefore(naming, clients + others, j)
  {
    var entries := clients + others;
    var c :| c in multiset(entries) && IsClient(c) && SameKey(naming, c, entries[i]);
    var k :| 0 <= k < |entries| && entries[k] == c;
    SideOf(clients, others, k);
    SideOf(clients, others, i);
  }

  lemma SideOf(front: seq<Entry>, back: seq<Entry>, i: nat)
    requires i < |front + back|
    ensures if i < |front| then (front + back)[i] in front else (front + back)[i] in back
  {
  }

  /** With the client overrides last the first pair of common ones ties. */
  lemma ClientsLast(naming: Naming, others: seq<Entry>, clients: seq<Entry>)
    requires (forall e :: e in clients ==> IsClient(e)) && (forall e :: e in others ==> !IsClient(e))
    requires TwoCommonsBesideClient(naming, multiset(others + clients))
    ensures !NoTies(naming, others + clients, |others + clients|)
  {
    var entries := others + clients;
    var d, e :| Pair(multiset(entries), d, e) && SameRank(naming, d, e) && !IsClient(d);
    var i, j := PairStands(entries, d, e);
    if i < j {
      NothingInFront(naming, others, clients, i, j);
    } else {
      NothingInFront(naming, others, clients, j, i);
    }
  }

  lemma NothingInFront(naming: Naming, others: seq<Entry>, clients: seq<Entry>, i: nat, j: nat)
    requires i < j < |others + clients| && SameRank(naming, (others + clients)[i], (others + clients)[j])
    requires (forall e :: e in clients ==> IsClient(e)) && (forall e :: e in others ==> !IsClient(e))
    requires !IsClient((others + clients)[j])
    ensures Tie(naming, others + clients, j)
  {
    var entries := others + clients;
    SideOf(others, clients, j);
    forall k | 0 <= k < j
      ensures !IsClient(entries[k])
    {
      assert entries[k] in others;
    }
  }

  ghost predicate SomeOrderDiffers(naming: Naming, entries: seq<Entry>)
  {
    exists reordered :: multiset(reordered) == multiset(entries)
                        && Merge(naming, reordered).Success? != Merge(naming, entries).Success?
  }

  /** The order of the entries decides whether the merge succeeds exactly for order-sensitive entries. */
  lemma OrderMattersExactly(naming: Naming, entries: seq<Entry>)
    ensures SomeOrderDiffers(naming, entries) <==> OrderSensitive(naming, entries)
  {
    if OrderSensitive(naming, entries) {
      TwoOrders(naming, entries);
    } else if reordered :| multiset(reordered) == multiset(entries)
                           && Merge(naming, reordered).Success? != Merge(naming, entries).Success? {
      SameOutcome(naming, entries, reordered);
    }
  }

  lemma FirstSucceeds(naming: Naming, clients: seq<Entry>, others: seq<Entry>)
    requires (forall e :: e in clients ==> IsClient(e)) && (forall e :: e in others ==> !IsClient(e))
    requires OrderSensitive(naming, clients + others)
    ensures Merge(naming, clients + others).Success?
  {
    ClientsFirst(naming, clients, others);
    MergeExactly(naming, clients + others);
  }

  lemma LastFails(naming: Naming, others: seq<Entry>, clients: seq<Entry>)
    requires (forall e :: e in clients ==> IsClient(e)) && (forall e :: e in others ==> !IsClient(e))
    requires TwoCommonsBesideClient(naming, multiset(others + clients))
    ensures Merge(naming, others + clients).Failure?
  {
    ClientsLast(naming, others, clients);
    MergeExactly(naming, others + clients);
  }

  lemma SensitiveInAnyOrder(naming: Naming, entries: seq<Entry>, reordered: seq<Entry>)
    requires multiset(entries) == multiset(reordered) && OrderSensitive(naming, entries)
    ensures OrderSensitive(naming, reordered)
  {
    SameAcceptance(naming, entries, reordered);
  }

  lemma TwoOrders(naming: Naming, entries: seq<Entry>)
    requires OrderSensitive(naming, entries)
    ensures SomeOrderDiffers(naming, entries)
  {
    var clients, others := Clients(entries), Others(entries);
    Parted(entries);
    SensitiveInAnyOrder(naming, entries, clients + others);
    FirstSucceeds(naming, clients, others);
    SensitiveInAnyOrder(naming, entries, others + clients);
    LastFails(naming, others, clients);
    if Merge(naming, entries).Success? {
      assert Merge(naming, others + clients).Success? != Merge(naming, entries).Success?;
    } else {
      assert Merge(naming, clients + others).Success? != Merge(naming, entries).Success?;
    }
  }

  /** The simplest case: a common entry twice, and a client entry between the two or behind them. */
  lemma RepeatedNamesDependOnOrder(naming: Naming, target: string)
    requires naming.allowed(target) && |target| > 0
    ensures var common, client := Entry(COMMON_PREFIX + target, true, 1), Entry(CLIENT_PREFIX + target, true, 1);
            && Merge(naming, [common, client, common]).Success?
            && Merge(naming, [common, common, client]) == Failure(TargetCollision)
  {
    var common, client := Entry(COMMON_PREFIX + target, true, 1), Entry(CLIENT_PREFIX + target, true, 1);
    RolesOf(target);
    ThreeMerges(naming, common, client, target);
  }

  lemma RolesOf(target: string)
    requires target != ""
    ensures RoleOf(Entry(COMMON_PREFIX + target, true, 1)) == Candidate(0, target)
    ensures RoleOf(Entry(CLIENT_PREFIX + target, true, 1)) == Candidate(1, target)
  {
    var common, client := Entry(COMMON_PREFIX + target, true, 1), Entry(CLIENT_PREFIX + target, true, 1);
    assert common.name[0] == 'o' && client.name[0] == 'c';
    assert common.name[|COMMON_PREFIX|..] == target;
    assert client.name[|CLIENT_PREFIX|..] == target;
  }

  lemma ThreeMerges(naming: Naming, common: Entry, client: Entry, target: string)
    requires RoleOf(common) == Candidate(0, target) && RoleOf(client) == Candidate(1, target)
    requires EntryFault(naming, common).None? && EntryFault(naming, client).None?
    ensures Merge(naming, [common, client, common]).Success?
    ensures Merge(naming, [common, common, client]) == Failure(TargetCollision)
  {
    MergeAppend(naming, [], common);
    assert [] + [common] == [common];
    MergeAppend(naming, [common], client);
    assert [common] + [client] == [common, client];
    MergeAppend(naming, [common, client], common);
    assert [common, client] + [common] == [common, client, common];
    MergeAppend(naming, [common], common);
    assert [common] + [common] == [common, common];
    assert [common, common, client][..2] == [common, common];
  }

  lemma MergeAppend(naming: Naming, entries: seq<Entry>, e: Entry)
    requires Merge(naming, entries).Success?
    ensures Merge(naming, entries + [e]) == MergeStep(naming, Merge(naming, entries).value, e, |entries|)
  {
    assert (entries + [e])[..|entries|] == entries;
  }

  // ----- The inventory ----------------------------------------------------------------------------------------------

  ghost function Listed(selected: Selection, keys: seq<string>): seq<Override>
    requires forall k :: k in keys ==> k in selected
  {
    if keys == [] then [] else [selected[keys[0]].file] + Listed(selected, keys[1..])
  }

  function Sizes(selected: Selection): map<string, nat>
  {
    map k | k in selected :: selected[k].file.size
  }

  ghost function TotalSize(selected: Selection): nat
  {
    SumOver(Sizes(selected), InOrder(selected.Keys))
  }

  function TargetOrder(x: Override, y: Override): bool
  {
    AtMost(x.target, y.target)
  }

  lemma ListStep(selected: Selection, done: seq<Override>, keys: seq<string>)
    requires keys != [] && forall k :: k in keys ==> k in selected
    ensures done + Listed(selected, keys) == (done + [selected[keys[0]].file]) + Listed(selected, keys[1..])
  {
  }

  /** What is listed and what is still to come make up the whole. */
  ghost predicate Listing(selected: Selection, todo: set<string>, files: seq<Override>, total: nat)
    requires todo <= selected.Keys
  {
    && files + Listed(selected, InOrder(todo)) == Listed(selected, InOrder(selected.Keys))
    && total + SumOver(Sizes(selected), InOrder(todo)) == TotalSize(selected)
  }

  lemma ListNext(selected: Selection, todo: set<string>, files: seq<Override>, total: nat, k: string)
    requires todo <= selected.Keys && IsLeast(k, todo) && Listing(selected, todo, files, total)
    ensures Listing(selected, todo - {k}, files + [selected[k].file], total + selected[k].file.size)
  {
    LeastUnique(k, Least(todo), todo);
    var keys := InOrder(todo);
    assert keys[0] == k && keys[1..] == InOrder(todo - {k});
    ListStep(selected, files, keys);
  }

  lemma ListDone(selected: Selection, files: seq<Override>, total: nat)
    requires Listing(selected, {}, files, total)
    ensures files == Listed(selected, InOrder(selected.Keys)) && total == TotalSize(selected)
  {
    assert files + [] == files;
  }

  lemma ListStart(selected: Selection)
    ensures Listing(selected, selected.Keys, [], 0)
  {
    var all := Listed(selected, InOrder(selected.Keys));
    assert [] + all == all;
  }

  /** The selected files in key order, with their total size. */
  method ListSelected(selected: Selection) returns (files: seq<Override>, total: nat)
    ensures files == Listed(selected, InOrder(selected.Keys)) && total == TotalSize(selected)
  {
    files, total := [], 0;
    var todo := selected.Keys;
    ListStart(selected);
    while todo != {}
      invariant todo <= selected.Keys && Listing(selected, todo, files, total)
      decreases todo
    {
      LeastExists(todo);
      var k :| IsLeast(k, todo);
      ListNext(selected, todo, files, total, k);
      files := files + [selected[k].file];
      total := total + selected[k].file.size;
      todo := todo - {k};
    }
    ListDone(selected, files, total);
  }

  method MergeEntries(naming: Naming, entries: seq<Entry>) returns (r: Result<Selection, MergeError>)
    ensures r == Merge(naming, entries)
  {
    var selected: Selection := map[];
    for i := 0 to |entries|
      invariant Merge(naming, entries[..i]) == Success(selected)
    {
      assert entries[..i + 1][..i] == entries[..i];
      var next := MergeEntry(naming, selected, entries[i], i);
      if next.Failure? {
        MergeFails(naming, entries, i + 1);
        return next;
      }
      selected := next.value;
    }
    assert entries[..|entries|] == entries;
    return Success(selected);
  }

  method MergeEntry(naming: Naming, selected: Selection, e: Entry, index: nat) returns (r: Result<Selection, MergeError>)
    ensures r == MergeStep(naming, selected, e, index)
  {
    var role := RoleOf(e);
    if role.Ignored? {
      return Success(selected);
    }
    if role.Unsupported? {
      return Failure(EntryUnsupported);
    }
    if !naming.allowed(role.target) {
      return Failure(TargetInvalid);
    }
    if e.size > MAX_OVERRIDE_BYTES {
      return Failure(SizeInvalid);
    }
    var key, candidate := naming.key(role.target), Override(index, role.target, e.size);
    if key !in selected {
      return Success(selected[key := Ranked(role.priority, candidate)]);
    }
    var existing := selected[key];
    if existing.file.target != candidate.target || existing.priority == role.priority {
      return Failure(TargetCollision);
    }
    if existing.priority > role.priority {
      return Success(selected);
    }
    return Success(selected[key := Ranked(role.priority, candidate)]);
  }

  /** The overrides to extract, by target. */
  method InventoryOverrides(naming: Naming, entries: seq<Entry>) returns (r: Result<seq<Override>, MergeError>)
    ensures r.Success? <==>
            && Merge(naming, entries).Success?
            && |Merge(naming, entries).value| <= MAX_OVERRIDES && TotalSize(Merge(naming, entries).value) <= MAX_TOTAL_BYTES
    ensures r.Success? ==>
              var selected := Merge(naming, entries).value;
              r.value == SortBy(Listed(selected, InOrder(selected.Keys)), TargetOrder)
    ensures Merge(naming, entries).Failure? ==> r == Failure(Merge(naming, entries).error)
    ensures Merge(naming, entries).Success? && r.Failure? ==>
              && r.error == (if |Merge(naming, entries).value| > 8192 then CountInvalid else TotalSizeInvalid)
              && (|Merge(naming, entries).value| > 8192 || TotalSize(Merge(naming, entries).value) > 4294967296)
  {
    var selected := MergeEntries(naming, entries);
    if selected.Failure? {
      return Failure(selected.error);
    }
    if |selected.value| > MAX_OVERRIDES {
      return Failure(CountInvalid);
    }
    var files, total := ListSelected(selected.value);
    if total > MAX_TOTAL_BYTES {
      return Failure(TotalSizeInvalid);
    }
    return Success(SortBy(files, TargetOrder));
  }

  // ----- The sum never overflows --------------------------------------------------------------------------------------

  ghost predicate Capped(selected: Selection)
  {
    forall k :: k in selected ==> selected[k].file.size <= MAX_OVERRIDE_BYTES
  }

  lemma {:induction false} MergeCapped(naming: Naming, entries: seq<Entry>)
    requires Merge(naming, entries).Success?
    ensures Capped(Merge(naming, entries).value)
  {
    if entries != [] {
      MergeCapped(naming, entries[..|entries| - 1]);
    }
  }

  lemma {:induction false} SumBounded(sizes: map<string, nat>, keys: seq<string>, cap: nat)
    requires forall k :: k in keys ==> k in sizes && sizes[k] <= cap
    ensures SumOver(sizes, keys) <= |keys| * cap
  {
    if keys != [] {
      SumBounded(sizes, keys[1..], cap);
      assert |keys| * cap == |keys[1..]| * cap + cap;
    }
  }

  /** So the checked addition of sizes never fails: the largest total is far below 64 bits. */
  lemma TotalIsAWord(naming: Naming, entries: seq<Entry>)
    requires Merge(naming, entries).Success? && |Merge(naming, entries).value| <= MAX_OVERRIDES
    ensures TotalSize(Merge(naming, entries).value) <= MAX_OVERRIDES * MAX_OVERRIDE_BYTES < 0x1_0000_0000_0000_0000
  {
    var selected := Merge(naming, entries).value;
    MergeCapped(naming, entries);
    SumBounded(Sizes(selected), InOrder(selected.Keys), MAX_OVERRIDE_BYTES);
  }
}
