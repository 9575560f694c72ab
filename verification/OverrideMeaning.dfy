/** Which override files an import of a modpack uses, told by the names of the archive's entries. */
module OverrideMeaning {
  import opened Wrappers
  import opened OrderedMaps
  import opened Ordering
  import opened OverrideMerge

  predicate FromCommon(e: Entry, target: string)
  {
    e.isFile && e.name == "overrides/" + target
  }

  predicate FromClient(e: Entry, target: string)
  {
    e.isFile && e.name == "client-overrides/" + target
  }

  /** The index, the overrides of a server, and what is no file have no part in the merge. */
  predicate Apart(e: Entry)
  {
    !e.isFile || e.name == "modrinth.index.json" || "server-overrides/" <= e.name
  }

  lemma RoleMeans(e: Entry)
    ensures RoleOf(e).Ignored? <==> Apart(e)
    ensures forall t :: RoleOf(e) == Candidate(0, t) <==> FromCommon(e, t)
    ensures forall t :: RoleOf(e) == Candidate(1, t) <==> FromClient(e, t)
    ensures RoleOf(e).Candidate? ==> RoleOf(e).priority == 0 || RoleOf(e).priority == 1
  {
    PrefixesApart(e.name);
    forall t
      ensures RoleOf(e) == Candidate(0, t) <==> FromCommon(e, t)
      ensures RoleOf(e) == Candidate(1, t) <==> FromClient(e, t)
    {
      if FromCommon(e, t) {
        assert e.name[10..] == t;
      }
      if FromClient(e, t) {
        assert e.name[17..] == t;
      }
      if "overrides/" <= e.name {
        assert e.name == "overrides/" + e.name[10..];
      }
      if "client-overrides/" <= e.name {
        assert e.name == "client-overrides/" + e.name[17..];
      }
    }
  }

  lemma PrefixesApart(name: string)
    ensures !("overrides/" <= name && "client-overrides/" <= name)
    ensures !("overrides/" <= name && "server-overrides/" <= name)
    ensures !("client-overrides/" <= name && "server-overrides/" <= name)
    ensures name == "modrinth.index.json" ==>
              !("overrides/" <= name) && !("client-overrides/" <= name) && !("server-overrides/" <= name)
  {
    assert "overrides/" <= name ==> name[0] == 'o';
    assert "client-overrides/" <= name ==> name[0] == 'c';
    assert "server-overrides/" <= name ==> name[0] == 's';
  }

  /** This entry is an override of this target. */
  predicate Overrides(e: Entry, target: string)
  {
    FromCommon(e, target) || FromClient(e, target)
  }

  /** Some client override has the key of this target. */
  ghost predicate ClientHas(naming: Naming, entries: seq<Entry>, target: string)
  {
    exists e, t :: e in entries && FromClient(e, t) && naming.key(t) == naming.key(target)
  }

  /** What makes an entry unacceptable. */
  lemma EntryFaultMeans(naming: Naming, e: Entry)
    ensures EntryFault(naming, e) == Some(EntryUnsupported) <==> !Apart(e) && forall t :: !Overrides(e, t)
    ensures EntryFault(naming, e) == Some(TargetInvalid) <==> exists t :: Overrides(e, t) && !naming.allowed(t)
    ensures EntryFault(naming, e) == Some(SizeInvalid)
       <==> e.size > 536870912 && exists t :: Overrides(e, t) && naming.allowed(t)
    ensures EntryFault(naming, e).None?
       <==> Apart(e) || (e.size <= 536870912 && exists t :: Overrides(e, t) && naming.allowed(t))
  {
    RoleMeans(e);
    if RoleOf(e).Candidate? {
      assert Overrides(e, RoleOf(e).target);
      forall t | Overrides(e, t)
        ensures t == RoleOf(e).target
      {
        assert RoleOf(e) == Candidate(0, t) || RoleOf(e) == Candidate(1, t);
      }
    }
  }

  /** The file chosen is a client override, or a common one where no client override has the key. */
  ghost predicate ChosenFrom(naming: Naming, entries: seq<Entry>, o: Override)
  {
    && o.index < |entries| && entries[o.index].size == o.size
    && (FromClient(entries[o.index], o.target)
        || (FromCommon(entries[o.index], o.target) && !ClientHas(naming, entries, o.target)))
  }

  lemma ChoiceMeans(naming: Naming, entries: seq<Entry>, selected: Selection, k: string)
    requires SelectsWinners(naming, entries, selected) && k in selected
    ensures ChosenFrom(naming, entries, selected[k].file) && naming.key(selected[k].file.target) == k
  {
    var o := selected[k].file;
    var e := entries[o.index];
    RoleMeans(e);
    if FromCommon(e, o.target) {
      CommonWinsAlone(naming, entries, k, e, o.target);
    }
  }

  lemma CommonWinsAlone(naming: Naming, entries: seq<Entry>, k: string, e: Entry, target: string)
    requires Wins(naming, entries, k, e) && FromCommon(e, target)
    ensures !ClientHas(naming, entries, target)
  {
    RoleMeans(e);
    assert RoleOf(e) == Candidate(0, target);
    forall c, t | c in entries && FromClient(c, t)
      ensures naming.key(t) != naming.key(target)
    {
      RoleMeans(c);
      assert RoleOf(c) == Candidate(1, t);
    }
  }

  /** The files listed are the ones selected. */
  lemma {:induction false} ListedMeans(selected: Selection, keys: seq<string>)
    requires forall k :: k in keys ==> k in selected
    ensures |Listed(selected, keys)| == |keys|
    ensures forall i :: 0 <= i < |keys| ==> Listed(selected, keys)[i] == selected[keys[i]].file
  {
    if keys != [] {
      ListedMeans(selected, keys[1..]);
    }
  }

  function BytesOf(files: seq<Override>): nat
  {
    if files == [] then 0 else files[0].size + BytesOf(files[1..])
  }

  lemma {:induction false} InsertBytes(x: Override, s: seq<Override>)
    ensures BytesOf(Insert(x, s, TargetOrder)) == x.size + BytesOf(s)
  {
    if s != [] && !TargetOrder(x, s[0]) {
      InsertBytes(x, s[1..]);
      assert ([s[0]] + Insert(x, s[1..], TargetOrder))[1..] == Insert(x, s[1..], TargetOrder);
    } else {
      assert ([x] + s)[1..] == s;
    }
  }

  lemma {:induction false} SortBytes(s: seq<Override>)
    ensures BytesOf(SortBy(s, TargetOrder)) == BytesOf(s)
  {
    if s != [] {
      SortBytes(s[1..]);
      InsertBytes(s[0], SortBy(s[1..], TargetOrder));
    }
  }

  lemma {:induction false} ListedBytes(selected: Selection, keys: seq<string>)
    requires forall k :: k in keys ==> k in selected
    ensures BytesOf(Listed(selected, keys)) == SumOver(Sizes(selected), keys)
  {
    if keys != [] {
      ListedBytes(selected, keys[1..]);
      var rest := Listed(selected, keys[1..]);
      assert ([selected[keys[0]].file] + rest)[1..] == rest;
    }
  }

  /** What an inventory delivers, if it succeeds. */
  ghost predicate Delivered(naming: Naming, entries: seq<Entry>, files: seq<Override>)
  {
    && Merge(naming, entries).Success? && |Merge(naming, entries).value| <= MAX_OVERRIDES
    && TotalSize(Merge(naming, entries).value) <= MAX_TOTAL_BYTES
    && files == SortBy(Listed(Merge(naming, entries).value, InOrder(Merge(naming, entries).value.Keys)), TargetOrder)
  }

  lemma FileIsChosen(naming: Naming, entries: seq<Entry>, files: seq<Override>, o: Override)
    requires Delivered(naming, entries, files) && o in files
    ensures ChosenFrom(naming, entries, o)
    ensures naming.key(o.target) in Merge(naming, entries).value
            && Merge(naming, entries).value[naming.key(o.target)].file == o
  {
    var selected := Merge(naming, entries).value;
    var keys := InOrder(selected.Keys);
    SameElements(files, Listed(selected, keys));
    ListedMeans(selected, keys);
    var i :| 0 <= i < |keys| && Listed(selected, keys)[i] == o;
    assert keys[i] in keys;
    MergeExactly(naming, entries);
    ChoiceMeans(naming, entries, selected, keys[i]);
  }

  /** Every override of the archive has a file of its very target in the result. */
  lemma OverrideHasFile(naming: Naming, entries: seq<Entry>, files: seq<Override>, e: Entry, target: string)
    requires Delivered(naming, entries, files) && e in entries && Overrides(e, target)
    ensures exists o :: o in files && o.target == target
  {
    var selected := Merge(naming, entries).value;
    var keys := InOrder(selected.Keys);
    RoleMeans(e);
    MergeExactly(naming, entries);
    assert RoleOf(e) == Candidate(0, target) || RoleOf(e) == Candidate(1, target);
    var k := KeyOf(naming, e);
    ListedMeans(selected, keys);
    var i :| 0 <= i < |keys| && keys[i] == k;
    var o := selected[k].file;
    assert o in Listed(selected, keys);
    SameElements(files, Listed(selected, keys));
    ChoiceMeans(naming, entries, selected, k);
    RoleMeans(entries[o.index]);
    assert SameKey(naming, entries[o.index], e);
  }

  lemma TargetOrderIsTotal()
    ensures TotalPreorder(TargetOrder)
  {
    forall x, y
      ensures TargetOrder(x, y) || TargetOrder(y, x)
    {
      AtMostTotal(x.target, y.target);
    }
    forall x, y, z | TargetOrder(x, y) && TargetOrder(y, z)
      ensures TargetOrder(x, z)
    {
      AtMostTransitive(x.target, y.target, z.target);
    }
  }

  /** One file per key, each once, in the order of their targets. */
  lemma FilesDiffer(naming: Naming, entries: seq<Entry>, files: seq<Override>, i: nat, j: nat)
    requires Delivered(naming, entries, files) && i < j < |files|
    ensures naming.key(files[i].target) != naming.key(files[j].target)
    ensures AtMost(files[i].target, files[j].target)
  {
    if naming.key(files[i].target) == naming.key(files[j].target) {
      SameKeyOnce(naming, entries, files, i, j);
    }
    FilesOrdered(naming, entries, files);
  }

  lemma FilesOrdered(naming: Naming, entries: seq<Entry>, files: seq<Override>)
    requires Delivered(naming, entries, files)
    ensures Ordered(files, TargetOrder)
  {
    TargetOrderIsTotal();
    SortByOrders(Listed(Merge(naming, entries).value, InOrder(Merge(naming, entries).value.Keys)), TargetOrder);
  }

  lemma SameKeyOnce(naming: Naming, entries: seq<Entry>, files: seq<Override>, i: nat, j: nat)
    requires Delivered(naming, entries, files) && i < j < |files|
    ensures naming.key(files[i].target) != naming.key(files[j].target)
  {
    FileIsChosen(naming, entries, files, files[i]);
    FileIsChosen(naming, entries, files, files[j]);
    MergeExactly(naming, entries);
    ListedOnce(naming, entries, Merge(naming, entries).value, files[i]);
    if files[i] == files[j] {
      TwoPositions(files, i, j);
    }
  }

  lemma ListedOnce(naming: Naming, entries: seq<Entry>, selected: Selection, o: Override)
    requires SelectsWinners(naming, entries, selected)
    ensures multiset(Listed(selected, InOrder(selected.Keys)))[o] <= 1
  {
    var keys := InOrder(selected.Keys);
    var listed := Listed(selected, keys);
    if multiset(listed)[o] > 1 {
      var i, j := StandsTwice(listed, o);
      ListedMeans(selected, keys);
      InOrderDistinct(selected.Keys);
      assert keys[i] in keys && keys[j] in keys;
      ChoiceMeans(naming, entries, selected, keys[i]);
      ChoiceMeans(naming, entries, selected, keys[j]);
    }
  }

  /** The bounds an inventory keeps. */
  lemma FilesBounded(naming: Naming, entries: seq<Entry>, files: seq<Override>)
    requires Delivered(naming, entries, files)
    ensures |files| <= 8192 && BytesOf(files) <= 4294967296
    ensures forall e :: e in entries ==>
              Apart(e) || (e.size <= 536870912 && exists t :: Overrides(e, t) && naming.allowed(t))
  {
    var selected := Merge(naming, entries).value;
    var keys := InOrder(selected.Keys);
    ListedMeans(selected, keys);
    ListedBytes(selected, keys);
    SortBytes(Listed(selected, keys));
    MergeExactly(naming, entries);
    forall e | e in entries
      ensures Apart(e) || (e.size <= 536870912 && exists t :: Overrides(e, t) && naming.allowed(t))
    {
      EntryFaultMeans(naming, e);
    }
  }
}
