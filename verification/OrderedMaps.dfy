/** Walking the keys of an ordered map from the least one on. */
module OrderedMaps {
  import opened Ordering

  predicate IsLeast(k: string, keys: set<string>)
  {
    k in keys && forall j :: j in keys ==> AtMost(k, j)
  }

  lemma {:induction false} LeastExists(keys: set<string>)
    requires keys != {}
    ensures exists k :: IsLeast(k, keys)
  {
    var x :| x in keys;
    AtMostReflexive(x);
    if keys == {x} {
      assert IsLeast(x, keys);
    } else {
      LeastExists(keys - {x});
      var k :| IsLeast(k, keys - {x});
      AtMostTotal(x, k);
      if AtMost(x, k) {
        forall j | j in keys
          ensures AtMost(x, j)
        {
          if j != x {
            AtMostTransitive(x, k, j);
          }
        }
        assert IsLeast(x, keys);
      } else {
        assert IsLeast(k, keys);
      }
    }
  }

  lemma LeastUnique(j: string, k: string, keys: set<string>)
    requires IsLeast(j, keys) && IsLeast(k, keys)
    ensures j == k
  {
    AtMostAntisymmetric(j, k);
  }

  ghost function Least(keys: set<string>): (k: string)
    requires keys != {}
    ensures IsLeast(k, keys)
  {
    LeastExists(keys);
    var k :| IsLeast(k, keys);
    k
  }

  /** The keys of an ordered map, in order. */
  ghost function InOrder(keys: set<string>): (r: seq<string>)
    ensures forall k :: k in r <==> k in keys
    ensures |r| == |keys|
  {
    if keys == {} then [] else [Least(keys)] + InOrder(keys - {Least(keys)})
  }

  // ----- Sums ---------------------------------------------------------------------------------------------

  ghost function SumOver(sizes: map<string, nat>, keys: seq<string>): nat
    requires forall k :: k in keys ==> k in sizes
  {
    if keys == [] then 0 else sizes[keys[0]] + SumOver(sizes, keys[1..])
  }

  lemma LeastStays(keys: set<string>, k: string)
    requires k in keys && k != Least(keys)
    ensures keys - {k} != {} && Least(keys - {k}) == Least(keys)
  {
    assert Least(keys) in keys - {k};
    assert IsLeast(Least(keys), keys - {k});
    LeastUnique(Least(keys - {k}), Least(keys), keys - {k});
  }

  /** A sum over ordered keys does not depend on the order: any key can be taken out first. */
  lemma {:induction false} SumWithout(sizes: map<string, nat>, keys: set<string>, k: string)
    requires k in keys && keys <= sizes.Keys
    ensures SumOver(sizes, InOrder(keys)) == sizes[k] + SumOver(sizes, InOrder(keys - {k}))
  {
    var least := Least(keys);
    if k != least {
      SumWithout(sizes, keys - {least}, k);
      LeastStays(keys, k);
      assert keys - {least} - {k} == keys - {k} - {least};
      assert InOrder(keys - {k}) == [least] + InOrder(keys - {k} - {least});
    }
    assert InOrder(keys) == [least] + InOrder(keys - {least});
  }

  lemma {:induction false} InOrderDistinct(keys: set<string>)
    ensures forall i, j :: 0 <= i < j < |InOrder(keys)| ==> InOrder(keys)[i] != InOrder(keys)[j]
  {
    if keys != {} {
      var rest := keys - {Least(keys)};
      InOrderDistinct(rest);
      assert InOrder(keys) == [Least(keys)] + InOrder(rest);
      assert Least(keys) !in InOrder(rest);
    }
  }
}
