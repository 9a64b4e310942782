/** Stable identities for the transactions of one provider response (services/sync/normalize.ts).
    SHA-256 is taken to be injective, so a hash is modelled by the string that is hashed. */
module Normalize {
  import opened Calendar
  import opened Domain
  import opened Numbering
  import opened SetFacts
  import opened Text

  function PtidHash(account: AccountId, id: string): string {
    account + "|ptid|" + id
  }

  function Description(rt: Runtime, tx: ProviderTx): string {
    rt.normalizeDescription(tx.description)
  }

  function Merchant(rt: Runtime, tx: ProviderTx): string {
    if tx.merchantName.Some? then rt.upper(tx.merchantName.value) else ""
  }

  /** The two free texts of a fingerprint, joined. */
  function Texts(rt: Runtime, tx: ProviderTx): string {
    Description(rt, tx) + "|" + Merchant(rt, tx)
  }

  function FingerprintKey(rt: Runtime, account: AccountId, tx: ProviderTx): string {
    account + "|" + IsoDay(tx.bookedDate) + "|" + Dec(tx.amountMinor) + "|" + Texts(rt, tx)
  }

  function FingerprintHash(key: string, occurrence: nat): string {
    key + "|" + DecNat(occurrence)
  }

  predicate HasId(tx: ProviderTx) { Truthy(tx.providerTransactionId) }

  /** The comparator of the sort. */
  function Compare(rt: Runtime, a: ProviderTx, b: ProviderTx): int {
    if a.timestamp != b.timestamp then a.timestamp - b.timestamp
    else if a.amountMinor != b.amountMinor then if a.amountMinor < b.amountMinor then -1 else 1
    else rt.localeCompare(a.description, b.description)
  }

  /** Rows without a provider id are numbered among the rows of their fingerprint. */
  function ByFingerprint(rt: Runtime, account: AccountId): Scheme<ProviderTx> {
    Scheme((tx: ProviderTx) => if HasId(tx) then None else Some(FingerprintKey(rt, account, tx)),
           (a, b) => Compare(rt, a, b))
  }

  function ByText(rt: Runtime): Scheme<string> {
    Scheme((s: string) => None, (a: string, b: string) => rt.localeCompare(a, b))
  }

  /** `localeCompare` is a total preorder on strings. */
  ghost predicate Collates(rt: Runtime) {
    Preorder(ByText(rt))
  }

  lemma ComparatorIsPreorder(rt: Runtime, account: AccountId)
    requires Collates(rt)
    ensures Preorder(ByFingerprint(rt, account))
  {
    forall a, b, c ensures Ordered(ByFingerprint(rt, account), a, b, c) {
      assert Ordered(ByText(rt), a.description, b.description, c.description);
    }
  }

  ghost function StableHash(rt: Runtime, account: AccountId, batch: seq<ProviderTx>, i: nat): string
    requires i < |batch|
  {
    if HasId(batch[i]) then PtidHash(account, batch[i].providerTransactionId.value)
    else FingerprintHash(FingerprintKey(rt, account, batch[i]), Occurrence(ByFingerprint(rt, account), batch, i))
  }

  /** The specification of `normalizeBatch`. */
  ghost function Normalized(rt: Runtime, account: AccountId, batch: seq<ProviderTx>): (r: seq<NormalizedTx>)
    ensures |r| == |batch|
  {
    seq(|batch|, i requires 0 <= i < |batch| => NormalizedTx(batch[i], StableHash(rt, account, batch, i)))
  }

  ghost predicate Assigned(rt: Runtime, account: AccountId, batch: seq<ProviderTx>, hashes: map<nat, string>, i: nat) {
    i < |batch| && i in hashes && hashes[i] == StableHash(rt, account, batch, i)
  }

  method NormalizeBatch(rt: Runtime, account: AccountId, batch: seq<ProviderTx>) returns (r: seq<NormalizedTx>)
    requires Collates(rt)
    ensures r == Normalized(rt, account, batch)
  {
    ComparatorIsPreorder(rt, account);
    var s := ByFingerprint(rt, account);
    var order := Sort(s, batch);
    var occurrences: map<string, nat> := map[];
    var hashes: map<nat, string> := map[];
    for n := 0 to |order|
      invariant Counted(s, batch, order, n, occurrences)
      invariant forall m :: 0 <= m < n ==> Assigned(rt, account, batch, hashes, order[m])
    {
      var i := order[n];
      var tx := batch[i];
      if HasId(tx) {
        CountedSkip(s, batch, order, n, occurrences);
        hashes := hashes[i := PtidHash(account, tx.providerTransactionId.value)];
      } else {
        var key := FingerprintKey(rt, account, tx);
        CountedBump(s, batch, order, n, occurrences, key);
        var occurrence := Counter(occurrences, key);
        occurrences := occurrences[key := occurrence + 1];
        hashes := hashes[i := FingerprintHash(key, occurrence)];
      }
      assert Assigned(rt, account, batch, hashes, i);
    }
    forall i: nat | i < |batch| ensures i in hashes && hashes[i] == StableHash(rt, account, batch, i) {
      assert i in order;
      var m :| 0 <= m < |order| && order[m] == i;
      assert Assigned(rt, account, batch, hashes, order[m]);
    }
    r := seq(|batch|, i requires 0 <= i < |batch| && i in hashes => NormalizedTx(batch[i], hashes[i]));
  }

  // --------------------------------------------- the strings never collide

  lemma {:induction false} LastSeparator(k1: string, d1: string, k2: string, d2: string)
    requires k1 + "|" + d1 == k2 + "|" + d2
    requires '|' !in d1 && '|' !in d2
    ensures k1 == k2 && d1 == d2
  {
    var s := k1 + "|" + d1;
    assert s[|k1|] == '|' && s[|k2|] == '|';
    forall x | |k1| < x < |s| ensures s[x] in d1 {
      assert s[x] == d1[x - |k1| - 1];
    }
    forall x | |k2| < x < |s| ensures s[x] in d2 {
      assert s[x] == d2[x - |k2| - 1];
    }
    assert k1 == s[..|k1|] && k2 == s[..|k1|];
    assert d1 == s[|k1| + 1..] && d2 == s[|k1| + 1..];
  }

  /** Fingerprint and occurrence number can both be read off the hash, whatever the texts contain. */
  lemma FingerprintHashInjective(k1: string, o1: nat, k2: string, o2: nat)
    ensures FingerprintHash(k1, o1) == FingerprintHash(k2, o2) <==> k1 == k2 && o1 == o2
  {
    if FingerprintHash(k1, o1) == FingerprintHash(k2, o2) {
      LastSeparator(k1, DecNat(o1), k2, DecNat(o2));
      ValueOfDecNat(o1);
      ValueOfDecNat(o2);
    }
  }

  lemma {:induction false} FirstSeparator(k1: string, d1: string, k2: string, d2: string)
    requires k1 + "|" + d1 == k2 + "|" + d2
    requires '|' !in k1 && '|' !in k2
    ensures k1 == k2 && d1 == d2
  {
    var s := k1 + "|" + d1;
    forall x | 0 <= x < |k1| ensures s[x] in k1 {
      assert s[x] == k1[x];
    }
    forall x | 0 <= x < |k2| ensures s[x] in k2 {
      assert s[x] == k2[x];
    }
    assert s[|k1|] == '|' && s[|k2|] == '|';
    assert k1 == s[..|k1|] && k2 == s[..|k1|];
    assert d1 == s[|k1| + 1..] && d2 == s[|k1| + 1..];
  }

  lemma KeyParts(rt: Runtime, account: AccountId, tx: ProviderTx)
    ensures FingerprintKey(rt, account, tx) ==
            account + ("|" + (IsoDay(tx.bookedDate) + "|" + (Dec(tx.amountMinor) + "|" + Texts(rt, tx))))
  {
    hide IsoDay, Dec, Texts;
  }

  lemma NumeralHasNoSeparator(n: int)
    ensures '|' !in Dec(n)
  {
  }

  lemma NumeralInjective(a: int, b: int)
    requires Dec(a) == Dec(b)
    ensures a == b
  {
    ValueOfDecNat(Abs(a));
    ValueOfDecNat(Abs(b));
    assert a < 0 ==> Dec(a)[1..] == DecNat(-a) && Dec(a)[0] == '-';
    assert b < 0 ==> Dec(b)[1..] == DecNat(-b) && Dec(b)[0] == '-';
    assert a >= 0 ==> Dec(a)[0] in DecNat(a);
    assert b >= 0 ==> Dec(b)[0] in DecNat(b);
  }

  /** The join does not tell `d1`, `m1` from `d2`, `m2`: the first description goes on after the second with a
      separator and a rest that the second merchant carries in front of the first. */
  predicate Shifted(d1: string, m1: string, d2: string, m2: string) {
    |d2| < |d1| && d1[..|d2| + 1] == d2 + "|" && m2 == d1[|d2| + 1..] + "|" + m1
  }

  /** When two joined pairs of texts agree. */
  lemma JoinsAgreeExactlyWhen(d1: string, m1: string, d2: string, m2: string)
    ensures d1 + "|" + m1 == d2 + "|" + m2 <==>
            (d1 == d2 && m1 == m2) || Shifted(d1, m1, d2, m2) || Shifted(d2, m2, d1, m1)
  {
    if d1 + "|" + m1 == d2 + "|" + m2 {
      if |d1| > |d2| {
        JoinSplits(d1, m1, d2, m2);
      } else if |d2| > |d1| {
        JoinSplits(d2, m2, d1, m1);
      } else {
        assert d1 == (d1 + "|" + m1)[..|d1|] && d2 == (d2 + "|" + m2)[..|d1|];
        SamePrefix(d1 + "|", m1, m2);
      }
    }
    if Shifted(d1, m1, d2, m2) {
      ShiftedJoins(d1, m1, d2, m2);
    }
    if Shifted(d2, m2, d1, m1) {
      ShiftedJoins(d2, m2, d1, m1);
    }
  }

  lemma JoinSplits(d1: string, m1: string, d2: string, m2: string)
    requires d1 + "|" + m1 == d2 + "|" + m2 && |d1| > |d2|
    ensures Shifted(d1, m1, d2, m2)
  {
    var s, n := d1 + "|" + m1, |d2| + 1;
    assert d1[..n] == s[..n] && d2 + "|" == s[..n];
    assert m2 == s[n..];
    assert s[n..] == d1[n..] + "|" + m1;
  }

  lemma ShiftedJoins(d1: string, m1: string, d2: string, m2: string)
    requires Shifted(d1, m1, d2, m2)
    ensures d1 + "|" + m1 == d2 + "|" + m2
  {
    assert d1 == d2 + "|" + d1[|d2| + 1..];
  }

  /** What a fingerprint tells apart: two transactions share one exactly when they print the same booked day,
      have the same amount, and either the same texts or texts that a separator inside them shifts. */
  lemma FingerprintsAgreeExactlyWhen(rt: Runtime, account: AccountId, a: ProviderTx, b: ProviderTx)
    ensures FingerprintKey(rt, account, a) == FingerprintKey(rt, account, b) <==>
            && IsoDay(a.bookedDate) == IsoDay(b.bookedDate)
            && a.amountMinor == b.amountMinor
            && var d, e := rt.normalizeDescription(a.description), rt.normalizeDescription(b.description);
               var m := if a.merchantName.Some? then rt.upper(a.merchantName.value) else "";
               var n := if b.merchantName.Some? then rt.upper(b.merchantName.value) else "";
               (d == e && m == n) || Shifted(d, m, e, n) || Shifted(e, n, d, m)
  {
    hide FingerprintKey, IsoDay, Dec, Shifted;
    JoinsAgreeExactlyWhen(Description(rt, a), Merchant(rt, a), Description(rt, b), Merchant(rt, b));
    FingerprintParts(rt, account, a, b);
  }

  lemma FingerprintParts(rt: Runtime, account: AccountId, a: ProviderTx, b: ProviderTx)
    ensures FingerprintKey(rt, account, a) == FingerprintKey(rt, account, b) <==>
            && IsoDay(a.bookedDate) == IsoDay(b.bookedDate)
            && a.amountMinor == b.amountMinor
            && Texts(rt, a) == Texts(rt, b)
  {
    hide FingerprintKey, IsoDay, Dec, Texts;
    KeyParts(rt, account, a);
    KeyParts(rt, account, b);
    if FingerprintKey(rt, account, a) == FingerprintKey(rt, account, b) {
      var x, y := Dec(a.amountMinor) + "|" + Texts(rt, a), Dec(b.amountMinor) + "|" + Texts(rt, b);
      var dx, dy := IsoDay(a.bookedDate) + "|" + x, IsoDay(b.bookedDate) + "|" + y;
      SamePrefix(account, "|" + dx, "|" + dy);
      SamePrefix("|", dx, dy);
      assert '|' !in IsoDay(a.bookedDate) && '|' !in IsoDay(b.bookedDate);
      FirstSeparator(IsoDay(a.bookedDate), x, IsoDay(b.bookedDate), y);
      NumeralHasNoSeparator(a.amountMinor);
      NumeralHasNoSeparator(b.amountMinor);
      FirstSeparator(Dec(a.amountMinor), Texts(rt, a), Dec(b.amountMinor), Texts(rt, b));
      NumeralInjective(a.amountMinor, b.amountMinor);
    }
  }

  /** Without a separator in one of the two positions a fingerprint tells any two texts apart. */
  lemma PlainTextsAreToldApart(rt: Runtime, account: AccountId, a: ProviderTx, b: ProviderTx)
    requires '|' !in Description(rt, a) || '|' !in Merchant(rt, b)
    requires '|' !in Description(rt, b) || '|' !in Merchant(rt, a)
    ensures FingerprintKey(rt, account, a) == FingerprintKey(rt, account, b) <==>
            && IsoDay(a.bookedDate) == IsoDay(b.bookedDate)
            && a.amountMinor == b.amountMinor
            && Description(rt, a) == Description(rt, b) && Merchant(rt, a) == Merchant(rt, b)
  {
    hide FingerprintKey, IsoDay, Shifted;
    FingerprintsAgreeExactlyWhen(rt, account, a, b);
    ShiftNeedsSeparators(Description(rt, a), Merchant(rt, a), Description(rt, b), Merchant(rt, b));
    ShiftNeedsSeparators(Description(rt, b), Merchant(rt, b), Description(rt, a), Merchant(rt, a));
  }

  lemma ShiftNeedsSeparators(d1: string, m1: string, d2: string, m2: string)
    ensures Shifted(d1, m1, d2, m2) ==> '|' in d1 && '|' in m2
  {
    if Shifted(d1, m1, d2, m2) {
      assert d1[..|d2| + 1][|d2|] == '|';
      assert (d1[|d2| + 1..] + "|" + m1)[|d1| - |d2| - 1] == '|';
    }
  }

  lemma SamePrefix(p: string, a: string, b: string)
    requires p + a == p + b
    ensures a == b
  {
    assert a == (p + a)[|p|..] && b == (p + b)[|p|..];
  }

  /** The joined texts do not tell where the description ends: for any texts `d`, `s`, `m`, with or without a
      merchant, a separator can make two different transactions share a fingerprint. */
  lemma JoinedTextsCanCollide(rt: Runtime, account: AccountId, a: ProviderTx, b: ProviderTx, d: string, s: string,
                              m: string)
    requires IsoDay(a.bookedDate) == IsoDay(b.bookedDate) && a.amountMinor == b.amountMinor
    requires Description(rt, a) == d + "|" + s && Merchant(rt, a) == m
    requires Description(rt, b) == d && Merchant(rt, b) == s + "|" + m
    ensures FingerprintKey(rt, account, a) == FingerprintKey(rt, account, b)
    ensures Description(rt, a) != Description(rt, b) && Merchant(rt, a) != Merchant(rt, b)
  {
    hide FingerprintKey, IsoDay;
    FingerprintsAgreeExactlyWhen(rt, account, a, b);
    assert (d + "|" + s)[..|d| + 1] == d + "|" && (d + "|" + s)[|d| + 1..] == s;
  }

  /** The character after the account prefix tells the two forms apart. */
  predicate IsFingerprintForm(account: AccountId, hash: string) {
    |hash| > |account| + 1 && hash[..|account| + 1] == account + "|" && hash[|account| + 1] != 'p'
  }

  lemma FormsAreDisjoint(account: AccountId, id: string)
    ensures !IsFingerprintForm(account, PtidHash(account, id))
  {
    assert PtidHash(account, id)[|account| + 1] == 'p';
  }

  lemma PtidHashInjective(account: AccountId, id1: string, id2: string)
    requires PtidHash(account, id1) == PtidHash(account, id2)
    ensures id1 == id2
  {
    assert id1 == PtidHash(account, id1)[|account + "|ptid|"|..];
    assert id2 == PtidHash(account, id2)[|account + "|ptid|"|..];
  }

  lemma FingerprintHashForm(rt: Runtime, account: AccountId, tx: ProviderTx, o: nat)
    ensures IsFingerprintForm(account, FingerprintHash(FingerprintKey(rt, account, tx), o))
  {
    var h := FingerprintHash(FingerprintKey(rt, account, tx), o);
    var day := IsoDay(tx.bookedDate);
    assert h[..|account| + 1] == account + "|";
    assert h[|account| + 1] == day[0];
    assert day[0] in day;
  }

  /** Two rows of a batch share an identity exactly when they are the same row or carry the same provider id. */
  lemma IdentitiesCollideOnlyOnEqualIds(rt: Runtime, account: AccountId, batch: seq<ProviderTx>, i: nat, j: nat)
    requires Collates(rt) && i < |batch| && j < |batch|
    ensures StableHash(rt, account, batch, i) == StableHash(rt, account, batch, j) <==>
            i == j ||
            (HasId(batch[i]) && HasId(batch[j]) && batch[i].providerTransactionId == batch[j].providerTransactionId)
  {
    if i != j && StableHash(rt, account, batch, i) == StableHash(rt, account, batch, j) {
      SameHashSameKind(rt, account, batch, i, batch, j);
      if !HasId(batch[i]) {
        ComparatorIsPreorder(rt, account);
        OccurrencesDiffer(ByFingerprint(rt, account), batch, FingerprintKey(rt, account, batch[i]), i, j);
      }
    }
  }

  /** What two rows, of one batch or of two, have in common when their identities agree. */
  lemma SameHashSameKind(rt: Runtime, account: AccountId, a: seq<ProviderTx>, i: nat, b: seq<ProviderTx>, j: nat)
    requires i < |a| && j < |b| && StableHash(rt, account, a, i) == StableHash(rt, account, b, j)
    ensures HasId(a[i]) <==> HasId(b[j])
    ensures HasId(a[i]) ==> a[i].providerTransactionId == b[j].providerTransactionId
    ensures !HasId(a[i]) ==>
              && FingerprintKey(rt, account, a[i]) == FingerprintKey(rt, account, b[j])
              && Occurrence(ByFingerprint(rt, account), a, i) == Occurrence(ByFingerprint(rt, account), b, j)
  {
    var s := ByFingerprint(rt, account);
    if HasId(a[i]) && HasId(b[j]) {
      PtidHashInjective(account, a[i].providerTransactionId.value, b[j].providerTransactionId.value);
    } else if HasId(a[i]) {
      FingerprintHashForm(rt, account, b[j], Occurrence(s, b, j));
      FormsAreDisjoint(account, a[i].providerTransactionId.value);
    } else if HasId(b[j]) {
      FingerprintHashForm(rt, account, a[i], Occurrence(s, a, i));
      FormsAreDisjoint(account, b[j].providerTransactionId.value);
    } else {
      FingerprintHashInjective(FingerprintKey(rt, account, a[i]), Occurrence(s, a, i),
                               FingerprintKey(rt, account, b[j]), Occurrence(s, b, j));
    }
  }

  // ------------------------------------------------------ order independence

  /** Monotone: every identity of a sub-multiset of a batch is an identity of the batch. */
  lemma SubBatchKeepsIdentities(rt: Runtime, account: AccountId, small: seq<ProviderTx>, big: seq<ProviderTx>,
                                pi: seq<nat>, i: nat)
    requires Collates(rt) && Embeds(small, big, pi) && i < |small|
    ensures exists j: nat :: j < |big| && StableHash(rt, account, big, j) == StableHash(rt, account, small, i)
  {
    if HasId(small[i]) {
      assert StableHash(rt, account, big, pi[i]) == StableHash(rt, account, small, i);
    } else {
      var s := ByFingerprint(rt, account);
      var key := FingerprintKey(rt, account, small[i]);
      ComparatorIsPreorder(rt, account);
      OccurrenceBelowCount(s, small, key, i);
      EmbeddedCount(s, small, big, pi, key);
      OccurrenceIsTaken(s, big, key, Occurrence(s, small, i));
      var j :| j in Carriers(s, big, key) && Occurrence(s, big, j) == Occurrence(s, small, i);
      assert StableHash(rt, account, big, j) == StableHash(rt, account, small, i);
    }
  }

  ghost function Bearers(rt: Runtime, account: AccountId, batch: seq<ProviderTx>, h: string): set<nat> {
    set i: nat | i < |batch| && StableHash(rt, account, batch, i) == h
  }

  /** No identity occurs more often in a sub-multiset of a batch than in the batch. */
  lemma SubBatchKeepsMultiplicity(rt: Runtime, account: AccountId, small: seq<ProviderTx>, big: seq<ProviderTx>,
                                  pi: seq<nat>, h: string)
    requires Collates(rt) && Embeds(small, big, pi)
    ensures |Bearers(rt, account, small, h)| <= |Bearers(rt, account, big, h)|
  {
    hide StableHash;
    var a, b := Bearers(rt, account, small, h), Bearers(rt, account, big, h);
    if i :| i in a {
      if HasId(small[i]) {
        forall j | j in a ensures pi[j] in b {
          SameHashSameKind(rt, account, small, i, small, j);
          IdHash(rt, account, small, j, big, pi[j]);
        }
        EmbeddedCard(small, big, pi, a, b);
      } else {
        forall j | j in a ensures j == i {
          IdentitiesCollideOnlyOnEqualIds(rt, account, small, i, j);
        }
        assert a == {i};
        SubBatchKeepsIdentities(rt, account, small, big, pi, i);
        var j: nat :| j < |big| && StableHash(rt, account, big, j) == StableHash(rt, account, small, i);
        SubsetCard({j}, b);
      }
    }
  }

  lemma IdHash(rt: Runtime, account: AccountId, a: seq<ProviderTx>, i: nat, b: seq<ProviderTx>, j: nat)
    requires i < |a| && j < |b| && a[i] == b[j] && HasId(a[i])
    ensures StableHash(rt, account, a, i) == StableHash(rt, account, b, j)
  {
  }

  // ---------------------------------------------------- numbers follow time

  /** Report `i` comes before report `j`: by time, then by description, then by place. */
  predicate Precedes(rt: Runtime, batch: seq<ProviderTx>, i: nat, j: nat)
    requires i < |batch| && j < |batch|
  {
    var order := rt.localeCompare(batch[i].description, batch[j].description);
    || batch[i].timestamp < batch[j].timestamp
    || (batch[i].timestamp == batch[j].timestamp && (order < 0 || (order == 0 && i < j)))
  }

  /** Of two look-alikes the one that precedes gets the lower number. */
  lemma NumbersFollowTime(rt: Runtime, account: AccountId, batch: seq<ProviderTx>, i: nat, j: nat)
    returns (a: nat, b: nat)
    requires Collates(rt) && i < |batch| && j < |batch| && !HasId(batch[i]) && !HasId(batch[j])
    requires FingerprintKey(rt, account, batch[i]) == FingerprintKey(rt, account, batch[j])
    requires Precedes(rt, batch, i, j)
    ensures var key := FingerprintKey(rt, account, batch[i]);
            && Normalized(rt, account, batch)[i].rawHash == FingerprintHash(key, a)
            && Normalized(rt, account, batch)[j].rawHash == FingerprintHash(key, b)
    ensures a < b
  {
    hide FingerprintKey, IsoDay, Shifted, FingerprintHash, Occurrence;
    var s := ByFingerprint(rt, account);
    a, b := Occurrence(s, batch, i), Occurrence(s, batch, j);
    ComparatorIsPreorder(rt, account);
    FingerprintsAgreeExactlyWhen(rt, account, batch[i], batch[j]);
    OccurrenceGrows(s, batch, FingerprintKey(rt, account, batch[i]), i, j);
  }

  /** Look-alikes appended to a batch, none of which precedes a report, leave its hash as it was. */
  lemma LaterLookalikesMoveNothing(rt: Runtime, account: AccountId, batch: seq<ProviderTx>, more: seq<ProviderTx>,
                                   i: nat)
    requires Collates(rt) && i < |batch|
    requires forall j: nat ::
               && |batch| <= j < |batch + more| && !HasId((batch + more)[j])
               && FingerprintKey(rt, account, (batch + more)[j]) == FingerprintKey(rt, account, batch[i]) ==>
               Precedes(rt, batch + more, i, j)
    ensures Normalized(rt, account, batch + more)[i].rawHash == Normalized(rt, account, batch)[i].rawHash
  {
    hide FingerprintKey, FingerprintHash, Preorder;
    var all, s := batch + more, ByFingerprint(rt, account);
    if !HasId(batch[i]) {
      var key := FingerprintKey(rt, account, batch[i]);
      ComparatorIsPreorder(rt, account);
      forall j: nat | j < |all| && Carries(s, all, key, j)
        ensures Before(s, all, j, i) <==> j < |batch| && Before(s, batch, j, i)
      {
        if j >= |batch| {
          PrecedesIsBefore(rt, account, all, i, j);
          BeforeIsStrictOrder(s, all, i, j, i);
        }
      }
      assert Earlier(s, all, key, i) == Earlier(s, batch, key, i);
    }
  }

  lemma PrecedesIsBefore(rt: Runtime, account: AccountId, batch: seq<ProviderTx>, i: nat, j: nat)
    requires i < |batch| && j < |batch| && Precedes(rt, batch, i, j)
    requires FingerprintKey(rt, account, batch[i]) == FingerprintKey(rt, account, batch[j])
    ensures Before(ByFingerprint(rt, account), batch, i, j)
  {
    hide FingerprintKey, IsoDay, Shifted;
    FingerprintsAgreeExactlyWhen(rt, account, batch[i], batch[j]);
  }

  /** A permuted batch hands out the same multiset of identities. */
  lemma PermutationKeepsMultiplicity(rt: Runtime, account: AccountId, a: seq<ProviderTx>, b: seq<ProviderTx>,
                                     there: seq<nat>, back: seq<nat>, h: string)
    requires Collates(rt) && Embeds(a, b, there) && Embeds(b, a, back)
    ensures |Bearers(rt, account, a, h)| == |Bearers(rt, account, b, h)|
  {
    SubBatchKeepsMultiplicity(rt, account, a, b, there, h);
    SubBatchKeepsMultiplicity(rt, account, b, a, back, h);
  }

  /** Two rows the sort cannot tell apart. */
  predicate SameRank(rt: Runtime, a: ProviderTx, b: ProviderTx) {
    && a.timestamp == b.timestamp
    && a.amountMinor == b.amountMinor
    && rt.localeCompare(a.description, b.description) == 0
  }

  /** Order independence: however a batch is permuted, the same identities are handed out, and an
      identity goes to the same provider id or to a row of the same fingerprint and rank. */
  lemma OrderIndependence(rt: Runtime, account: AccountId, a: seq<ProviderTx>, b: seq<ProviderTx>,
                          there: seq<nat>, back: seq<nat>, i: nat)
    requires Collates(rt) && Embeds(a, b, there) && Embeds(b, a, back) && i < |a|
    ensures exists j: nat :: j < |b| && StableHash(rt, account, b, j) == StableHash(rt, account, a, i)
    ensures forall j: nat :: j < |b| && StableHash(rt, account, b, j) == StableHash(rt, account, a, i) ==>
              if HasId(a[i]) then b[j].providerTransactionId == a[i].providerTransactionId
              else && !HasId(b[j])
                   && FingerprintKey(rt, account, a[i]) == FingerprintKey(rt, account, b[j])
                   && SameRank(rt, a[i], b[j])
  {
    SubBatchKeepsIdentities(rt, account, a, b, there, i);
    forall j: nat | j < |b| && StableHash(rt, account, b, j) == StableHash(rt, account, a, i)
      ensures HasId(a[i]) ==> b[j].providerTransactionId == a[i].providerTransactionId
      ensures !HasId(a[i]) ==> !HasId(b[j]) && FingerprintKey(rt, account, a[i]) == FingerprintKey(rt, account, b[j])
      ensures !HasId(a[i]) ==> SameRank(rt, a[i], b[j])
    {
      SameHashSameKind(rt, account, a, i, b, j);
      if !HasId(a[i]) {
        SameNumberSameRank(rt, account, a, b, there, back, i, j);
      }
    }
  }

  lemma SameNumberSameRank(rt: Runtime, account: AccountId, a: seq<ProviderTx>, b: seq<ProviderTx>,
                           there: seq<nat>, back: seq<nat>, i: nat, j: nat)
    requires Collates(rt) && Embeds(a, b, there) && Embeds(b, a, back) && i < |a| && j < |b|
    requires !HasId(a[i]) && !HasId(b[j])
    requires FingerprintKey(rt, account, a[i]) == FingerprintKey(rt, account, b[j])
    requires Occurrence(ByFingerprint(rt, account), a, i) == Occurrence(ByFingerprint(rt, account), b, j)
    ensures SameRank(rt, a[i], b[j])
  {
    ComparatorIsPreorder(rt, account);
    NumberedNotBelow(rt, account, a, b, there, i, j);
    NumberedNotBelow(rt, account, b, a, back, j, i);
    MutuallyNotBelow(rt, a[i], b[j]);
  }

  lemma NumberedNotBelow(rt: Runtime, account: AccountId, a: seq<ProviderTx>, b: seq<ProviderTx>, pi: seq<nat>,
                         i: nat, j: nat)
    requires Preorder(ByFingerprint(rt, account)) && Embeds(a, b, pi) && i < |a| && j < |b|
    requires !HasId(a[i]) && !HasId(b[j])
    requires FingerprintKey(rt, account, a[i]) == FingerprintKey(rt, account, b[j])
    requires Occurrence(ByFingerprint(rt, account), a, i) >= Occurrence(ByFingerprint(rt, account), b, j)
    ensures Compare(rt, a[i], b[j]) >= 0
  {
    HigherNumberIsNotBelow(ByFingerprint(rt, account), a, b, pi, FingerprintKey(rt, account, a[i]), i, j);
  }

  lemma MutuallyNotBelow(rt: Runtime, a: ProviderTx, b: ProviderTx)
    requires Collates(rt) && Compare(rt, a, b) >= 0 && Compare(rt, b, a) >= 0
    ensures SameRank(rt, a, b)
  {
    assert Ordered(ByText(rt), a.description, b.description, a.description);
  }

  /** A different row without an id that shares the fingerprint of `tx` and ties with it in the sort. */
  predicate Rivals(rt: Runtime, account: AccountId, tx: ProviderTx, other: ProviderTx) {
    && !HasId(tx) && !HasId(other) && other != tx
    && FingerprintKey(rt, account, tx) == FingerprintKey(rt, account, other)
    && SameRank(rt, tx, other)
  }

  /** The hashes a batch gives to the rows that read `tx`. */
  ghost function HashesOf(rt: Runtime, account: AccountId, batch: seq<ProviderTx>, tx: ProviderTx): set<string> {
    set i: nat | i < |batch| && batch[i] == tx :: StableHash(rt, account, batch, i)
  }

  ghost predicate Permutes(a: seq<ProviderTx>, b: seq<ProviderTx>, there: seq<nat>, back: seq<nat>) {
    Embeds(a, b, there) && Embeds(b, a, back)
  }

  /** However the batch is permuted, the rows that read `tx` get the same hashes. */
  ghost predicate KeepsItsHashes(rt: Runtime, account: AccountId, a: seq<ProviderTx>, tx: ProviderTx) {
    forall b, there, back | Permutes(a, b, there, back) ::
      HashesOf(rt, account, b, tx) == HashesOf(rt, account, a, tx)
  }

  /** Order independence, row by row: a row keeps its hashes under every permutation of the batch exactly when no
      different row of its fingerprint ties with it. */
  lemma KeepsItsHashesExactlyWhen(rt: Runtime, account: AccountId, a: seq<ProviderTx>, i: nat)
    requires Collates(rt) && i < |a|
    ensures KeepsItsHashes(rt, account, a, a[i]) <==> forall k: nat :: k < |a| ==> !Rivals(rt, account, a[i], a[k])
  {
    hide HashesOf, Rivals, Embeds;
    if k: nat :| k < |a| && Rivals(rt, account, a[i], a[k]) {
      TradeMovesHashes(rt, account, a, i, k);
    } else {
      forall b, there, back | Permutes(a, b, there, back)
        ensures HashesOf(rt, account, b, a[i]) == HashesOf(rt, account, a, a[i])
      {
        UnrivalledKeeps(rt, account, a, b, there, back, a[i]);
        forall j: nat | j < |b| ensures !Rivals(rt, account, a[i], b[j]) {
          EmbeddedIsIn(b, a, back, j);
        }
        UnrivalledKeeps(rt, account, b, a, back, there, a[i]);
      }
    }
  }

  lemma EmbeddedIsIn(small: seq<ProviderTx>, big: seq<ProviderTx>, pi: seq<nat>, i: nat)
    requires Embeds(small, big, pi) && i < |small|
    ensures |pi| == |small| && pi[i] < |big| && big[pi[i]] == small[i]
  {
  }

  lemma UnrivalledKeeps(rt: Runtime, account: AccountId, a: seq<ProviderTx>, b: seq<ProviderTx>, there: seq<nat>,
                        back: seq<nat>, tx: ProviderTx)
    requires Collates(rt) && Permutes(a, b, there, back)
    requires forall k: nat :: k < |a| ==> !Rivals(rt, account, tx, a[k])
    ensures HashesOf(rt, account, a, tx) <= HashesOf(rt, account, b, tx)
  {
    hide StableHash, Embeds, SameRank, FingerprintKey, Collates;
    forall h | h in HashesOf(rt, account, a, tx) ensures h in HashesOf(rt, account, b, tx) {
      var i: nat :| i < |a| && a[i] == tx && StableHash(rt, account, a, i) == h;
      if HasId(tx) {
        EmbeddedIsIn(a, b, there, i);
        IdHash(rt, account, a, i, b, there[i]);
      } else {
        OrderIndependence(rt, account, a, b, there, back, i);
        var j: nat :| j < |b| && StableHash(rt, account, b, j) == h;
        EmbeddedIsIn(b, a, back, j);
        assert !Rivals(rt, account, tx, a[back[j]]);
        assert b[j] == tx;
      }
    }
  }

  lemma SwapEmbeds(a: seq<ProviderTx>, i: nat, k: nat) returns (pi: seq<nat>)
    requires i < |a| && k < |a|
    ensures Permutes(a, Swapped(a, i, k), pi, pi)
  {
    pi := seq(|a|, x requires 0 <= x => if x == i then k else if x == k then i else x);
  }

  /** Two tied rows trade their hashes when they trade their places. */
  lemma TradeMovesHashes(rt: Runtime, account: AccountId, a: seq<ProviderTx>, i: nat, k: nat)
    requires Collates(rt) && i < |a| && k < |a| && Rivals(rt, account, a[i], a[k])
    ensures var b := Swapped(a, i, k);
            && b[k] == a[i] && StableHash(rt, account, b, k) == StableHash(rt, account, a, k)
            && StableHash(rt, account, b, k) != StableHash(rt, account, a, i)
            && HashesOf(rt, account, b, a[i]) != HashesOf(rt, account, a, a[i])
    ensures !KeepsItsHashes(rt, account, a, a[i])
  {
    hide FingerprintKey, Collates, Occurrence, Permutes;
    var b, s := Swapped(a, i, k), ByFingerprint(rt, account);
    ComparatorIsPreorder(rt, account);
    forall x: nat | x < |a| && !HasId(a[x]) ensures StableHash(rt, account, b, x) == StableHash(rt, account, a, x) {
      SwapKeepsNumbers(s, a, i, k, x);
      SameKeySameHash(rt, account, a, b, x);
    }
    IdentitiesCollideOnlyOnEqualIds(rt, account, a, i, k);
    var h := StableHash(rt, account, a, i);
    assert h in HashesOf(rt, account, a, a[i]);
    forall x: nat | x < |b| && b[x] == a[i] ensures StableHash(rt, account, b, x) != h {
      IdentitiesCollideOnlyOnEqualIds(rt, account, b, x, i);
    }
    assert h !in HashesOf(rt, account, b, a[i]);
    var pi := SwapEmbeds(a, i, k);
  }

  lemma SameKeySameHash(rt: Runtime, account: AccountId, a: seq<ProviderTx>, b: seq<ProviderTx>, x: nat)
    requires x < |a| == |b| && !HasId(a[x])
    requires var s := ByFingerprint(rt, account);
             s.key(b[x]) == s.key(a[x]) && Occurrence(s, b, x) == Occurrence(s, a, x)
    ensures !HasId(b[x]) && StableHash(rt, account, b, x) == StableHash(rt, account, a, x)
  {
    hide FingerprintKey, Occurrence;
  }
}
