/** Numbering the items of a list that share a key, in the order of a stable sort. This is the
    counting scheme of services/sync/normalize.ts, free of what keys and orders look like there. */
module Numbering {
  import opened Domain
  import opened SetFacts

  /** `key` is None for an item that takes no number. */
  datatype Scheme<!T> = Scheme(key: T -> Option<string>, cmp: (T, T) -> int)

  ghost predicate Ordered<T>(s: Scheme<T>, a: T, b: T, c: T) {
    && (s.cmp(a, b) < 0 <==> s.cmp(b, a) > 0)
    && (s.cmp(b, c) < 0 <==> s.cmp(c, b) > 0)
    && (s.cmp(a, c) < 0 <==> s.cmp(c, a) > 0)
    && (s.cmp(a, b) <= 0 && s.cmp(b, c) <= 0 ==> s.cmp(a, c) <= 0)
  }

  /** The comparator is a total preorder. */
  ghost predicate Preorder<T(!new)>(s: Scheme<T>) {
    forall a, b, c :: Ordered(s, a, b, c)
  }

  /** Array.prototype.sort is stable: ties keep the order of the list. */
  predicate Before<T>(s: Scheme<T>, items: seq<T>, i: nat, j: nat)
    requires i < |items| && j < |items|
  {
    var c := s.cmp(items[i], items[j]);
    c < 0 || (c == 0 && i < j)
  }

  lemma BeforeIsStrictOrder<T(!new)>(s: Scheme<T>, items: seq<T>, i: nat, j: nat, k: nat)
    requires Preorder(s) && i < |items| && j < |items| && k < |items|
    ensures !Before(s, items, i, i)
    ensures i != j ==> (Before(s, items, i, j) <==> !Before(s, items, j, i))
    ensures Before(s, items, i, j) && Before(s, items, j, k) ==> Before(s, items, i, k)
  {
    var x, y, z := items[i], items[j], items[k];
    assert Ordered(s, x, x, x) && Ordered(s, x, y, z) && Ordered(s, y, z, x) && Ordered(s, z, x, y);
  }

  predicate Carries<T>(s: Scheme<T>, items: seq<T>, key: string, i: nat)
    requires i < |items|
  {
    s.key(items[i]) == Some(key)
  }

  ghost function Carriers<T>(s: Scheme<T>, items: seq<T>, key: string): set<nat> {
    set i: nat | i < |items| && Carries(s, items, key, i)
  }

  /** How many items share `key`. */
  ghost function KeyCount<T>(s: Scheme<T>, items: seq<T>, key: string): nat {
    |Carriers(s, items, key)|
  }

  ghost function Earlier<T>(s: Scheme<T>, items: seq<T>, key: string, i: nat): set<nat>
    requires i < |items|
  {
    set j: nat | j < |items| && Carries(s, items, key, j) && Before(s, items, j, i)
  }

  /** The number of an item: its rank among the items of its key. */
  ghost function Occurrence<T>(s: Scheme<T>, items: seq<T>, i: nat): nat
    requires i < |items| && s.key(items[i]).Some?
  {
    |Earlier(s, items, s.key(items[i]).value, i)|
  }

  // ---------------------------------------------------------------- the loop

  ghost predicate Sorts<T>(s: Scheme<T>, items: seq<T>, order: seq<nat>) {
    && (forall i :: 0 <= i < |order| ==> order[i] < |items|)
    && (forall i, j :: 0 <= i < j < |order| ==> Before(s, items, order[i], order[j]))
  }

  ghost predicate Lists(order: seq<nat>, n: nat) {
    forall x: nat :: x in order <==> x < n
  }

  /** Inserting the next index of the list into the sorted indices, after its ties. */
  method Insert<T(!new)>(s: Scheme<T>, items: seq<T>, order: seq<nat>, n: nat) returns (r: seq<nat>)
    requires Preorder(s) && Sorts(s, items, order) && Lists(order, n) && n < |items|
    ensures Sorts(s, items, r) && Lists(r, n + 1)
  {
    hide Before, Preorder, Lists;
    var p := |order|;
    while p > 0 && Before(s, items, n, order[p - 1])
      invariant 0 <= p <= |order|
      invariant forall i :: p <= i < |order| ==> Before(s, items, n, order[i])
    {
      p := p - 1;
    }
    InsertionPoint(s, items, order, n, p);
    r := order[..p] + [n] + order[p..];
    InsertedSorts(s, items, order, n, p);
    InsertedLists(order, n, p);
  }

  lemma InsertedLists(order: seq<nat>, n: nat, p: nat)
    requires Lists(order, n) && p <= |order|
    ensures Lists(order[..p] + [n] + order[p..], n + 1)
  {
    var r := order[..p] + [n] + order[p..];
    forall x: nat ensures x in r <==> x < n + 1 {
      assert x in order <==> x in order[..p] || x in order[p..] by { assert order == order[..p] + order[p..]; }
    }
  }

  lemma InsertedSorts<T>(s: Scheme<T>, items: seq<T>, order: seq<nat>, n: nat, p: nat)
    requires Sorts(s, items, order) && n < |items| && p <= |order|
    requires forall i :: 0 <= i < p ==> Before(s, items, order[i], n)
    requires forall i :: p <= i < |order| ==> Before(s, items, n, order[i])
    ensures Sorts(s, items, order[..p] + [n] + order[p..])
  {
    hide Before;
    var r := order[..p] + [n] + order[p..];
    forall i | 0 <= i < |r| ensures r[i] == if i < p then order[i] else if i == p then n else order[i - 1] {
    }
  }

  lemma InsertionPoint<T(!new)>(s: Scheme<T>, items: seq<T>, order: seq<nat>, n: nat, p: nat)
    requires Preorder(s) && Sorts(s, items, order) && Lists(order, n) && n < |items| && p <= |order|
    requires p > 0 ==> !Before(s, items, n, order[p - 1])
    ensures forall i :: 0 <= i < p ==> Before(s, items, order[i], n)
  {
    forall i | 0 <= i < p ensures Before(s, items, order[i], n) {
      assert order[i] in order && order[p - 1] in order;
      BeforeIsStrictOrder(s, items, order[p - 1], n, n);
      BeforeIsStrictOrder(s, items, order[i], order[p - 1], n);
    }
  }

  /** Stands for `[...transactions].sort(...)`: the result lists every index once, in order. */
  method Sort<T(!new)>(s: Scheme<T>, items: seq<T>) returns (order: seq<nat>)
    requires Preorder(s)
    ensures Sorts(s, items, order) && Lists(order, |items|)
  {
    order := [];
    for n := 0 to |items|
      invariant Sorts(s, items, order) && Lists(order, n)
    {
      order := Insert(s, items, order, n);
    }
  }

  /** The items with `key` among the first `n` of the sorted list. */
  ghost function Seen<T>(s: Scheme<T>, items: seq<T>, order: seq<nat>, n: nat, key: string): set<nat>
    requires n <= |order| && Sorts(s, items, order)
  {
    set j: nat | j in order[..n] && Carries(s, items, key, j)
  }

  /** Walking the sorted list, the items seen so far are the items that come before the current one. */
  lemma SeenIsEarlier<T(!new)>(s: Scheme<T>, items: seq<T>, order: seq<nat>, n: nat, key: string)
    requires Preorder(s) && Sorts(s, items, order) && Lists(order, |items|) && n < |order|
    ensures Seen(s, items, order, n, key) == Earlier(s, items, key, order[n])
    ensures order[n] !in Seen(s, items, order, n, key)
  {
    var i := order[n];
    forall j: nat | j < |items| ensures j in order[..n] <==> Before(s, items, j, i) {
      assert j in order;
      var m :| 0 <= m < |order| && order[m] == j;
      BeforeIsStrictOrder(s, items, j, i, i);
      BeforeIsStrictOrder(s, items, i, j, j);
      if m < n {
        assert order[..n][m] == j;
      } else {
        assert Before(s, items, i, j) || i == j;
        assert forall l :: 0 <= l < n ==> order[..n][l] == order[l] && Before(s, items, order[l], i);
      }
    }
    BeforeIsStrictOrder(s, items, i, i, i);
  }

  lemma SeenStep<T>(s: Scheme<T>, items: seq<T>, order: seq<nat>, n: nat, key: string)
    requires Sorts(s, items, order) && n < |order|
    ensures Seen(s, items, order, n + 1, key) ==
            Seen(s, items, order, n, key) + (if Carries(s, items, key, order[n]) then {order[n]} else {})
  {
    assert order[..n + 1] == order[..n] + [order[n]];
  }

  /** `occurrences.get(key) ?? 0` */
  function Counter(occurrences: map<string, nat>, key: string): nat {
    if key in occurrences then occurrences[key] else 0
  }

  ghost predicate Counted<T>(s: Scheme<T>, items: seq<T>, order: seq<nat>, n: nat, occurrences: map<string, nat>)
    requires n <= |order| && Sorts(s, items, order)
  {
    forall key :: Counter(occurrences, key) == |Seen(s, items, order, n, key)|
  }

  lemma CountedSkip<T>(s: Scheme<T>, items: seq<T>, order: seq<nat>, n: nat, occurrences: map<string, nat>)
    requires Sorts(s, items, order) && n < |order| && s.key(items[order[n]]).None?
    requires Counted(s, items, order, n, occurrences)
    ensures Counted(s, items, order, n + 1, occurrences)
  {
    forall key ensures Counter(occurrences, key) == |Seen(s, items, order, n + 1, key)| {
      SeenStep(s, items, order, n, key);
    }
  }

  lemma CountedBump<T(!new)>(s: Scheme<T>, items: seq<T>, order: seq<nat>, n: nat, occurrences: map<string, nat>,
                             key: string)
    requires Preorder(s) && Sorts(s, items, order) && Lists(order, |items|) && n < |order|
    requires s.key(items[order[n]]) == Some(key)
    requires Counted(s, items, order, n, occurrences)
    ensures Counted(s, items, order, n + 1, occurrences[key := Counter(occurrences, key) + 1])
    ensures Counter(occurrences, key) == Occurrence(s, items, order[n])
  {
    hide Preorder, Before, Sorts, Lists, Seen;
    SeenIsEarlier(s, items, order, n, key);
    var next := occurrences[key := Counter(occurrences, key) + 1];
    forall other ensures Counter(next, other) == |Seen(s, items, order, n + 1, other)| {
      SeenStep(s, items, order, n, other);
    }
  }

  // ------------------------------------------------------- what numbers mean

  lemma OccurrenceGrows<T(!new)>(s: Scheme<T>, items: seq<T>, key: string, i: nat, j: nat)
    requires Preorder(s) && i in Carriers(s, items, key) && j in Carriers(s, items, key)
    requires Before(s, items, i, j)
    ensures Occurrence(s, items, i) < Occurrence(s, items, j)
  {
    var e, f := Earlier(s, items, key, i), Earlier(s, items, key, j);
    forall x | x in e + {i} ensures x in f {
      BeforeIsStrictOrder(s, items, x, i, j);
    }
    BeforeIsStrictOrder(s, items, i, i, i);
    SubsetCard(e + {i}, f);
  }

  lemma OccurrencesDiffer<T(!new)>(s: Scheme<T>, items: seq<T>, key: string, i: nat, j: nat)
    requires Preorder(s) && i != j && i in Carriers(s, items, key) && j in Carriers(s, items, key)
    ensures Occurrence(s, items, i) != Occurrence(s, items, j)
  {
    BeforeIsStrictOrder(s, items, i, j, j);
    if Before(s, items, i, j) {
      OccurrenceGrows(s, items, key, i, j);
    } else {
      OccurrenceGrows(s, items, key, j, i);
    }
  }

  lemma OccurrenceBelowCount<T(!new)>(s: Scheme<T>, items: seq<T>, key: string, i: nat)
    requires Preorder(s) && i in Carriers(s, items, key)
    ensures Occurrence(s, items, i) < KeyCount(s, items, key)
  {
    var e := Earlier(s, items, key, i);
    BeforeIsStrictOrder(s, items, i, i, i);
    SubsetCard(e + {i}, Carriers(s, items, key));
  }

  lemma OccurrenceIsTaken<T(!new)>(s: Scheme<T>, items: seq<T>, key: string, o: nat)
    requires Preorder(s) && o < KeyCount(s, items, key)
    ensures exists i :: i in Carriers(s, items, key) && Occurrence(s, items, i) == o
  {
    var carriers := Carriers(s, items, key);
    var rank := map i | i in carriers :: Occurrence(s, items, i);
    assert rank.Keys == carriers;
    forall i | i in rank ensures rank[i] < |rank| {
      OccurrenceBelowCount(s, items, key, i);
    }
    forall i, j | i in rank && j in rank && i != j ensures rank[i] != rank[j] {
      OccurrencesDiffer(s, items, key, i, j);
    }
    RanksAreOnto(rank, o);
  }

  /** The items of one key get exactly the numbers 0, 1, ..., count - 1 (each once, by OccurrencesDiffer). */
  lemma OccurrencesAreExact<T(!new)>(s: Scheme<T>, items: seq<T>, key: string, o: nat)
    requires Preorder(s)
    ensures (exists i :: i in Carriers(s, items, key) && Occurrence(s, items, i) == o) <==> o < KeyCount(s, items, key)
  {
    forall i | i in Carriers(s, items, key) ensures Occurrence(s, items, i) < KeyCount(s, items, key) {
      OccurrenceBelowCount(s, items, key, i);
    }
    if o < KeyCount(s, items, key) {
      OccurrenceIsTaken(s, items, key, o);
    }
  }

  // ------------------------------------------------------ order independence

  /** `pi` places the items of `small` at distinct places of `big`: a permutation when both have the
      same length, a sub-multiset otherwise. */
  ghost predicate Embeds<T>(small: seq<T>, big: seq<T>, pi: seq<nat>) {
    && |pi| == |small|
    && (forall i :: 0 <= i < |pi| ==> pi[i] < |big| && big[pi[i]] == small[i])
    && (forall i, j :: 0 <= i < j < |pi| ==> pi[i] != pi[j])
  }

  lemma EmbeddedCard<T>(small: seq<T>, big: seq<T>, pi: seq<nat>, a: set<nat>, b: set<nat>)
    requires Embeds(small, big, pi)
    requires forall i :: i in a ==> i < |small| && pi[i] in b
    ensures |a| <= |b|
  {
    var m := map i | i in a :: pi[i];
    assert m.Keys == a;
    InjectiveOnto(m, b);
  }

  lemma EmbeddedCount<T>(s: Scheme<T>, small: seq<T>, big: seq<T>, pi: seq<nat>, key: string)
    requires Embeds(small, big, pi)
    ensures KeyCount(s, small, key) <= KeyCount(s, big, key)
  {
    EmbeddedCard(small, big, pi, Carriers(s, small, key), Carriers(s, big, key));
  }

  /** An item with a number at least as high does not sort strictly below. */
  lemma HigherNumberIsNotBelow<T(!new)>(s: Scheme<T>, a: seq<T>, b: seq<T>, pi: seq<nat>, key: string, i: nat, j: nat)
    requires Preorder(s) && Embeds(a, b, pi)
    requires i in Carriers(s, a, key) && j in Carriers(s, b, key)
    requires Occurrence(s, a, i) >= Occurrence(s, b, j)
    ensures s.cmp(a[i], b[j]) >= 0
  {
    if s.cmp(a[i], b[j]) < 0 {
      var e, f := Earlier(s, a, key, i), Earlier(s, b, key, j);
      assert Ordered(s, a[i], a[i], b[j]);
      forall x | x in e + {i} ensures x < |a| && pi[x] in f {
        assert Ordered(s, a[x], a[i], b[j]) && Ordered(s, b[j], a[x], a[i]);
      }
      BeforeIsStrictOrder(s, a, i, i, i);
      EmbeddedCard(a, b, pi, e + {i}, f);
    }
  }

  /** Trading two places. */
  function Swapped<T>(items: seq<T>, i: nat, k: nat): (r: seq<T>)
    requires i < |items| && k < |items|
    ensures |r| == |items|
  {
    items[i := items[k]][k := items[i]]
  }

  lemma TiesCompareAlike<T(!new)>(s: Scheme<T>, a: T, b: T, c: T)
    requires Preorder(s) && s.cmp(a, b) == 0
    ensures s.cmp(a, c) < 0 <==> s.cmp(b, c) < 0
    ensures s.cmp(a, c) == 0 <==> s.cmp(b, c) == 0
    ensures s.cmp(c, a) < 0 <==> s.cmp(c, b) < 0
    ensures s.cmp(c, a) == 0 <==> s.cmp(c, b) == 0
  {
    assert Ordered(s, a, b, c) && Ordered(s, b, a, c) && Ordered(s, c, a, b) && Ordered(s, c, b, a);
  }

  /** Trading two tied items of one key moves no number: each place keeps its own. */
  lemma SwapKeepsNumbers<T(!new)>(s: Scheme<T>, items: seq<T>, i: nat, k: nat, x: nat)
    requires Preorder(s) && i < |items| && k < |items| && x < |items|
    requires s.key(items[i]) == s.key(items[k]) && s.cmp(items[i], items[k]) == 0
    ensures var after := Swapped(items, i, k);
            && s.key(after[x]) == s.key(items[x])
            && (s.key(items[x]).Some? ==> Occurrence(s, after, x) == Occurrence(s, items, x))
  {
    var after := Swapped(items, i, k);
    assert Ordered(s, items[i], items[k], items[k]) && Ordered(s, items[k], items[i], items[i]);
    if s.key(items[x]).Some? {
      var key := s.key(items[x]).value;
      forall j: nat | j < |items| ensures Before(s, after, j, x) <==> Before(s, items, j, x) {
        SamePlaceSameOrder(s, items, i, k, j, x);
      }
      assert Earlier(s, after, key, x) == Earlier(s, items, key, x);
    }
  }

  lemma SamePlaceSameOrder<T(!new)>(s: Scheme<T>, items: seq<T>, i: nat, k: nat, x: nat, y: nat)
    requires Preorder(s) && i < |items| && k < |items| && x < |items| && y < |items|
    requires s.cmp(items[i], items[k]) == 0 && s.cmp(items[k], items[i]) == 0
    ensures Before(s, Swapped(items, i, k), x, y) <==> Before(s, items, x, y)
  {
    var after := Swapped(items, i, k);
    assert Ordered(s, items[x], items[x], items[x]);
    if after[x] != items[x] {
      TiesCompareAlike(s, items[x], after[x], items[y]);
      TiesCompareAlike(s, items[x], after[x], after[y]);
    }
    if after[y] != items[y] {
      TiesCompareAlike(s, items[y], after[y], items[x]);
      TiesCompareAlike(s, items[y], after[y], after[x]);
    }
  }
}
