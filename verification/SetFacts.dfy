/** Counting facts about finite sets and maps. */
module SetFacts {

  lemma {:induction false} SubsetCard<T>(a: set<T>, b: set<T>)
    requires a <= b
    ensures |a| <= |b|
    ensures |a| == |b| ==> a == b
  {
    if a != {} {
      var x :| x in a;
      SubsetCard(a - {x}, b - {x});
      assert a == (a - {x}) + {x} && b == (b - {x}) + {x};
    }
  }

  function Below(n: nat): (s: set<nat>)
    ensures |s| == n
    ensures forall x: nat :: x in s <==> x < n
  {
    if n == 0 then {} else Below(n - 1) + {n - 1}
  }

  ghost predicate Injective<K, V>(m: map<K, V>) {
    forall x, y :: x in m && y in m && m[x] == m[y] ==> x == y
  }

  lemma {:induction false} InjectiveCard<K, V>(m: map<K, V>)
    requires Injective(m)
    ensures |m.Values| == |m|
  {
    if m == map[] {
      assert m.Values == {};
    } else {
      var x :| x in m;
      var rest := m - {x};
      InjectiveCard(rest);
      assert m.Values == rest.Values + {m[x]};
      assert m[x] !in rest.Values;
      assert m.Keys == rest.Keys + {x};
      assert |m| == |rest| + 1;
    }
  }

  /** An injective map from a set to a set of the same size, or a smaller one, is onto it. */
  lemma InjectiveOnto<K, V>(m: map<K, V>, s: set<V>)
    requires Injective(m) && m.Values <= s
    ensures |m| <= |s|
    ensures |m| == |s| ==> m.Values == s
  {
    InjectiveCard(m);
    SubsetCard(m.Values, s);
  }

  /** Distinct ranks below the number of ranked elements take every value below that number. */
  lemma RanksAreOnto<K>(rank: map<K, nat>, o: nat)
    requires Injective(rank) && o < |rank|
    requires forall x :: x in rank ==> rank[x] < |rank|
    ensures exists x :: x in rank && rank[x] == o
  {
    InjectiveOnto(rank, Below(|rank|));
    assert o in rank.Values;
  }
}
