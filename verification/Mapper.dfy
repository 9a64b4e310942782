/** The provider boundary (providers/truelayer/mapper.ts): decimal amounts to pence, canonical signs, days. */
module Mapper {
  import opened Domain
  import opened Store

  /** The relative error of one rounding to nearest in binary64 (IEEE 754-2019, section 4.3.1), 2^-53. */
  const UNIT: real := 1.0 / 9007199254740992.0

  function AbsReal(x: real): real { if x < 0.0 then -x else x }

  /** `r` is an admissible floating-point result for the real number `exact`. */
  ghost predicate Rounds(exact: real, r: real) {
    AbsReal(r - exact) <= UNIT * AbsReal(exact)
  }

  /** `Math.round`: the nearest integer, ties towards plus infinity (ECMA-262, section 21.3.2.28). */
  function MathRound(x: real): (n: int)
    ensures n as real - 0.5 <= x < n as real + 0.5
  {
    (x + 0.5).Floor
  }

  /** `times100` is the floating-point multiplication by 100. */
  function ToMinorUnits(times100: real -> real, major: real): int {
    MathRound(times100(major))
  }

  /** Decimal to pence is exact: for every amount of k pence below 2^51, the double nearest to k / 100,
      multiplied by 100 and rounded, is k. */
  lemma PenceAreExact(times100: real -> real, k: int, major: real)
    requires -2251799813685248 < k < 2251799813685248
    requires Rounds(k as real / 100.0, major)
    requires Rounds(major * 100.0, times100(major))
    ensures ToMinorUnits(times100, major) == k
  {
    var exact := k as real;
    var y := times100(major);
    assert AbsReal(major * 100.0 - exact) <= UNIT * AbsReal(exact);
    assert AbsReal(major * 100.0) <= AbsReal(exact) + UNIT * AbsReal(exact);
    assert AbsReal(y - major * 100.0) <= UNIT * (AbsReal(exact) + UNIT * AbsReal(exact));
    assert AbsReal(exact) <= 2251799813685247.0;
    assert AbsReal(y - exact) < 0.5;
  }

  function Pow2(j: nat): (p: int)
    ensures p >= 1
  {
    if j == 0 then 1 else 2 * Pow2(j - 1)
  }

  /** A binary64 number, the range of exponents aside: an integer of 53 bits, scaled by a power of two. */
  ghost predicate IsDouble(x: real) {
    exists m: int, j: nat :: Scales(x, m, j)
  }

  predicate Scales(x: real, m: int, j: nat) {
    -9007199254740992 <= m <= 9007199254740992 && (x * Pow2(j) as real == m as real || x == (m * Pow2(j)) as real)
  }

  /** Rounding to nearest: no double is closer. */
  ghost predicate Nearest(exact: real, r: real) {
    IsDouble(r) && forall x: real | IsDouble(x) :: AbsReal(r - exact) <= AbsReal(x - exact)
  }

  /** A double close to `exact`, found up to 100 * 2^45 + 1 pence. */
  lemma SomeDoubleIsNear(k: int) returns (near: real)
    requires -3518437208883201 <= k <= 3518437208883201
    ensures IsDouble(near) && AbsReal(near - k as real / 100.0) < 0.0025
  {
    var m: int;
    if k == 3518437208883201 || k == -3518437208883201 {
      m := if k > 0 then 4503599627370497 else -4503599627370497;
      near := m as real / 128.0;
      IsScaled(near, m, 7);
    } else {
      m := MathRound(k as real / 100.0 * 256.0);
      near := m as real / 256.0;
      IsScaled(near, m, 8);
    }
  }

  /** For doubles proper the pence are exact up to 100 * 2^45 + 1 of them. */
  lemma PenceOfDoublesAreExact(times100: real -> real, k: int, major: real)
    requires -3518437208883201 <= k <= 3518437208883201
    requires Nearest(k as real / 100.0, major)
    requires Nearest(major * 100.0, times100(major))
    ensures ToMinorUnits(times100, major) == k
  {
    hide IsDouble;
    var near := SomeDoubleIsNear(k);
    IsScaled(k as real, k, 0);
    assert AbsReal(major - k as real / 100.0) < 0.0025;
    assert AbsReal(k as real - major * 100.0) < 0.25;
    assert AbsReal(times100(major) - major * 100.0) < 0.25;
  }

  lemma IsScaled(x: real, m: int, j: nat)
    requires -9007199254740992 <= m <= 9007199254740992 && j <= 8 && x * Power(j) == m as real
    ensures IsDouble(x)
  {
    PowerIsPow2(j);
    assert Scales(x, m, j);
  }

  function Power(j: nat): real
    requires j <= 8
  {
    [1.0, 2.0, 4.0, 8.0, 16.0, 32.0, 64.0, 128.0, 256.0][j]
  }

  lemma {:induction false} PowerIsPow2(j: nat)
    requires j <= 8
    ensures Power(j) == Pow2(j) as real
  {
    if j > 0 {
      PowerIsPow2(j - 1);
    }
  }

  lemma {:induction false} PowersMultiply(i: nat, j: nat)
    ensures Pow2(i + j) == Pow2(i) * Pow2(j)
  {
    if i > 0 {
      PowersMultiply(i - 1, j);
    }
  }

  /** A double whose magnitude is at least 2^52 / 2^g is a multiple of 1 / 2^g. */
  lemma LargeDoublesAreCoarse(x: real, m: int, j: nat, g: nat) returns (n: int)
    requires Scales(x, m, j) && AbsReal(x) * Pow2(g) as real >= 4503599627370496.0
    ensures x * Pow2(g) as real == n as real
  {
    hide Pow2, AbsReal;
    if x == (m * Pow2(j)) as real {
      n := IntegersAreCoarse(x, m * Pow2(j), Pow2(g));
    } else if j <= g {
      PowersMultiply(j, g - j);
      n := m * Pow2(g - j);
      Reassociate(x, Pow2(j), Pow2(g - j), m);
    } else {
      PowersMultiply(j - g, g);
      TwoOrMore(j - g);
      n := FinerIsEven(x, m, Pow2(j - g), Pow2(g));
    }
  }

  lemma IntegersAreCoarse(x: real, i: int, u: int) returns (n: int)
    requires x == i as real
    ensures x * u as real == n as real
  {
    n := i * u;
  }

  lemma TwoOrMore(j: nat)
    requires j > 0
    ensures Pow2(j) >= 2
  {
  }

  lemma Reassociate(x: real, p: int, q: int, m: int)
    requires x * p as real == m as real
    ensures x * (p * q) as real == (m * q) as real
  {
    assert x * (p * q) as real == (x * p as real) * q as real;
  }

  /** The finest grid that 53 bits reach at this magnitude is met at its end points only. */
  lemma FinerIsEven(x: real, m: int, p: int, q: int) returns (n: int)
    requires p >= 2 && x * (p * q) as real == m as real && -9007199254740992 <= m <= 9007199254740992
    requires AbsReal(x) * q as real >= 4503599627370496.0
    ensures x * q as real == n as real
  {
    var z := x * q as real;
    assert z * p as real == m as real by { assert x * (p * q) as real == (x * q as real) * p as real; }
    assert AbsReal(z) >= 4503599627370496.0 by { assert q >= 0 || q < 0; MagnitudeOfProduct(x, q); }
    EndPoint(z, m, p);
    n := if z >= 0.0 then 4503599627370496 else -4503599627370496;
  }

  lemma MagnitudeOfProduct(x: real, q: int)
    ensures AbsReal(x * q as real) >= AbsReal(x) * q as real
  {
    if x >= 0.0 && q >= 0 {
      assert x * q as real >= 0.0;
    } else if x < 0.0 && q >= 0 {
      assert (-x) * q as real >= 0.0;
    } else if x >= 0.0 {
      assert x * (-q) as real >= 0.0;
    } else {
      assert (-x) * (-q) as real >= 0.0;
    }
  }

  lemma EndPoint(z: real, m: int, p: int)
    requires p >= 2 && z * p as real == m as real && -9007199254740992 <= m <= 9007199254740992
    requires AbsReal(z) >= 4503599627370496.0
    ensures AbsReal(z) == 4503599627370496.0
  {
    var a := AbsReal(z);
    assert a * p as real >= a * 2.0 by { assert a * (p as real - 2.0) >= 0.0; }
    assert a * p as real <= 9007199254740992.0 by { if z < 0.0 { assert (-z) * p as real == -(m as real); } }
  }

  /** A multiple of 1 / 2^g within half a unit is nearest when everything below 2^52 / 2^g is farther away. */
  lemma NearestMultiple(exact: real, r: real, n: int, g: nat)
    requires (g == 1 || g == 7) && r * Power(g) == n as real && -9007199254740992 <= n <= 9007199254740992
    requires AbsReal(r - exact) * Power(g) <= 0.5
    requires (exact - AbsReal(r - exact)) * Power(g) >= 4503599627370496.0
    ensures Nearest(exact, r)
  {
    hide Pow2;
    IsScaled(r, n, g);
    forall x: real | IsDouble(x) ensures AbsReal(r - exact) <= AbsReal(x - exact) {
      var m: int, j: nat :| Scales(x, m, j);
      if AbsReal(x - exact) < AbsReal(r - exact) {
        PowerIsPow2(g);
        CloseIsLarge(exact, r, x, g);
        var k := LargeDoublesAreCoarse(x, m, j, g);
        CloserMultiple(exact, r, n, x, k, g);
      }
    }
  }

  lemma CloseIsLarge(exact: real, r: real, x: real, g: nat)
    requires (g == 1 || g == 7) && AbsReal(x - exact) < AbsReal(r - exact)
    requires (exact - AbsReal(r - exact)) * Power(g) >= 4503599627370496.0
    ensures AbsReal(x) * Power(g) >= 4503599627370496.0
  {
    if g == 1 {
      assert Power(g) == 2.0;
    } else {
      assert Power(g) == 128.0;
    }
  }

  lemma CloserMultiple(exact: real, r: real, n: int, x: real, k: int, g: nat)
    requires (g == 1 || g == 7) && r * Power(g) == n as real && x * Power(g) == k as real
    requires AbsReal(r - exact) * Power(g) <= 0.5
    ensures AbsReal(r - exact) <= AbsReal(x - exact)
  {
    if g == 1 {
      assert Power(g) == 2.0;
      HalfIsNearest(exact * 2.0, n, k);
    } else {
      assert Power(g) == 128.0;
      HalfIsNearest(exact * 128.0, n, k);
    }
  }

  lemma HalfIsNearest(e: real, n: int, k: int)
    requires -0.5 <= n as real - e <= 0.5
    ensures AbsReal(n as real - e) <= AbsReal(k as real - e)
  {
    if k > n {
      assert k as real >= n as real + 1.0;
    } else if k < n {
      assert k as real <= n as real - 1.0;
    }
  }

  /** The next penny goes wrong: the double nearest to the amount, multiplied by 100 and rounded to the nearest
      double, lies half-way to the penny after it, which `Math.round` takes. */
  lemma PenceGoWrongBeyond() returns (k: int, major: real, product: real)
    ensures k == 3518437208883202
    ensures Nearest(k as real / 100.0, major) && Nearest(major * 100.0, product)
    ensures MathRound(product) == k + 1
  {
    k := 3518437208883202;
    major := 4503599627370499.0 / 128.0;
    product := 7036874417766405.0 / 2.0;
    NearestMultiple(k as real / 100.0, major, 4503599627370499, 7);
    NearestMultiple(major * 100.0, product, 7036874417766405, 1);
  }

  /** `major` and `product` are what the doubles of k pence and of a hundred times that can be. */
  ghost predicate PenceAsDoubles(k: int, major: real, product: real) {
    Nearest(k as real / 100.0, major) && Nearest(major * 100.0, product)
  }

  /** Every amount of up to `bound` pence comes back. */
  ghost predicate ExactUpTo(bound: int) {
    forall k: int, major: real, product: real |
      -bound <= k <= bound && PenceAsDoubles(k, major, product) :: MathRound(product) == k
  }

  /** The exact bound for doubles. */
  lemma PenceAreExactExactlyUpTo(bound: int)
    ensures ExactUpTo(bound) <==> bound <= 3518437208883201
  {
    hide Nearest;
    if bound <= 3518437208883201 {
      forall k: int, major: real, product: real | -bound <= k <= bound && PenceAsDoubles(k, major, product)
        ensures MathRound(product) == k
      {
        PenceOfDoublesAreExact((x: real) => product, k, major);
      }
    } else {
      var k, major, product := PenceGoWrongBeyond();
      assert PenceAsDoubles(k, major, product);
    }
  }

  function Magnitude(n: int): int { if n < 0 then -n else n }

  function CanonicalAmountMinor(times100: real -> real, amount: real, transactionType: Option<string>): int {
    var minor := ToMinorUnits(times100, amount);
    if transactionType == Some("DEBIT") then -Magnitude(minor)
    else if transactionType == Some("CREDIT") then Magnitude(minor)
    else minor
  }

  /** The sign convention: money out is negative, money in positive, and the pence are those reported. */
  lemma CanonicalAmountIsSigned(times100: real -> real, k: int, amount: real, transactionType: Option<string>)
    requires -2251799813685248 < k < 2251799813685248
    requires Rounds(k as real / 100.0, amount) && Rounds(amount * 100.0, times100(amount))
    ensures var m := CanonicalAmountMinor(times100, amount, transactionType);
            && Magnitude(m) == Magnitude(k)
            && (transactionType == Some("DEBIT") ==> m <= 0)
            && (transactionType == Some("CREDIT") ==> m >= 0)
            && (transactionType != Some("DEBIT") && transactionType != Some("CREDIT") ==> m == k)
  {
    PenceAreExact(times100, k, amount);
  }

  datatype RawTransaction = RawTransaction(
    transactionId: Option<string>, timestamp: int, description: Option<string>, amount: real, currency: string,
    transactionType: Option<string>, transactionCategory: Option<string>, classification: seq<string>,
    merchantName: Option<string>, runningBalance: Option<real>)

  /** A property that is spread in only when the string is truthy. */
  function IfTruthy(s: Option<string>): Option<string> {
    if Truthy(s) then s else None
  }

  function JoinSlash(parts: seq<string>): string
    requires |parts| > 0
  {
    if |parts| == 1 then parts[0] else parts[0] + " / " + JoinSlash(parts[1..])
  }

  function MapTransaction(rt: Runtime, times100: real -> real, raw: RawTransaction, status: Status): ProviderTx {
    var trimmed := if raw.description.Some? then rt.trim(raw.description.value) else "";
    ProviderTx(
      IfTruthy(raw.transactionId), status, raw.timestamp, DayStart(raw.timestamp),
      CanonicalAmountMinor(times100, raw.amount, raw.transactionType), raw.currency,
      if trimmed != "" then trimmed else "(no description)",
      IfTruthy(raw.merchantName), IfTruthy(raw.transactionCategory),
      if |raw.classification| > 0 then Some(JoinSlash(raw.classification)) else None,
      if raw.runningBalance.Some? then Some(ToMinorUnits(times100, raw.runningBalance.value)) else None)
  }

  function MapAll(rt: Runtime, times100: real -> real, raws: seq<RawTransaction>, status: Status): (r: seq<ProviderTx>)
    ensures |r| == |raws|
    ensures forall i :: 0 <= i < |r| ==> r[i] == MapTransaction(rt, times100, raws[i], status)
  {
    seq(|raws|, i requires 0 <= i < |raws| => MapTransaction(rt, times100, raws[i], status))
  }

  /** Joined parts join: the separator stands between any two runs of them. */
  lemma {:induction false} JoinedPartsJoin(a: seq<string>, b: seq<string>)
    requires |a| > 0 && |b| > 0
    ensures JoinSlash(a + b) == JoinSlash(a) + " / " + JoinSlash(b)
    ensures |a| == 1 ==> JoinSlash(a) == a[0]
  {
    if |a| == 1 {
      assert (a + b)[1..] == b;
    } else {
      JoinedPartsJoin(a[1..], b);
      assert (a + b)[1..] == a[1..] + b;
      assert a[0] + " / " + (JoinSlash(a[1..]) + " / " + JoinSlash(b)) ==
             a[0] + " / " + JoinSlash(a[1..]) + " / " + JoinSlash(b);
    }
  }

  /** `amount` is the double of k pence, and its product by 100 the double nearest to it, within the exact bound. */
  ghost predicate IsPence(times100: real -> real, amount: real, k: int) {
    && -3518437208883201 <= k <= 3518437208883201
    && Nearest(k as real / 100.0, amount) && Nearest(amount * 100.0, times100(amount))
  }

  /** The money of a mapped transaction: DEBIT out, CREDIT in, anything else as reported, to the penny. */
  ghost predicate MoneyIsMapped(times100: real -> real, raw: RawTransaction, tx: ProviderTx) {
    && (forall k | IsPence(times100, raw.amount, k) ::
          tx.amountMinor == if raw.transactionType == Some("DEBIT") then (if k < 0 then k else -k)
                            else if raw.transactionType == Some("CREDIT") then (if k < 0 then -k else k)
                            else k)
    && (raw.runningBalance.None? <==> tx.runningBalanceMinor.None?)
    && (forall k | raw.runningBalance.Some? && IsPence(times100, raw.runningBalance.value, k) ::
          tx.runningBalanceMinor == Some(k))
  }

  /** The texts of a mapped transaction: empty ones are left out, and the category column carries the type. */
  predicate TextsAreMapped(rt: Runtime, raw: RawTransaction, tx: ProviderTx) {
    var trimmed := if raw.description.Some? then rt.trim(raw.description.value) else "";
    && tx.providerTransactionId == (if raw.transactionId == Some("") then None else raw.transactionId)
    && tx.currency == raw.currency
    && tx.description == (if trimmed == "" then "(no description)" else trimmed)
    && tx.merchantName == (if raw.merchantName == Some("") then None else raw.merchantName)
    && tx.transactionType == (if raw.transactionCategory == Some("") then None else raw.transactionCategory)
    && tx.category == (if raw.classification == [] then None else Some(JoinSlash(raw.classification)))
  }

  lemma MoneyOfOne(rt: Runtime, times100: real -> real, raw: RawTransaction, status: Status)
    ensures MoneyIsMapped(times100, raw, MapTransaction(rt, times100, raw, status))
  {
    hide Nearest, JoinSlash, MathRound;
    forall k | IsPence(times100, raw.amount, k) ensures ToMinorUnits(times100, raw.amount) == k {
      PenceOfDoublesAreExact(times100, k, raw.amount);
    }
    forall k | raw.runningBalance.Some? && IsPence(times100, raw.runningBalance.value, k)
      ensures ToMinorUnits(times100, raw.runningBalance.value) == k
    {
      PenceOfDoublesAreExact(times100, k, raw.runningBalance.value);
    }
  }

  /** What a report of the provider becomes, column by column: the money to the penny with its sign, the texts without
      the empty ones, the timestamp, a booked date that is its UTC day, and the status of its list. The rest of the
      protocol relies on there being no empty ids, merchants or descriptions. */
  lemma BoundaryGuarantees(rt: Runtime, times100: real -> real, settled: seq<RawTransaction>,
                           pending: seq<RawTransaction>)
    ensures var raws := settled + pending;
            var batch := MapAll(rt, times100, settled, Settled) + MapAll(rt, times100, pending, Pending);
            && |batch| == |raws| && NoEmptyIds(batch)
            && forall i :: 0 <= i < |batch| ==>
                 && MoneyIsMapped(times100, raws[i], batch[i])
                 && TextsAreMapped(rt, raws[i], batch[i])
                 && batch[i].merchantName != Some("") && batch[i].description != ""
                 && batch[i].timestamp == raws[i].timestamp
                 && batch[i].bookedDate % 86_400_000 == 0
                 && batch[i].bookedDate <= batch[i].timestamp < batch[i].bookedDate + 86_400_000
                 && batch[i].status == (if i < |settled| then Settled else Pending)
  {
    hide CanonicalAmountMinor, ToMinorUnits, JoinSlash, MoneyIsMapped;
    var a, b := MapAll(rt, times100, settled, Settled), MapAll(rt, times100, pending, Pending);
    forall i | 0 <= i < |a + b|
      ensures (a + b)[i] == MapTransaction(rt, times100, (settled + pending)[i], if i < |a| then Settled else Pending)
      ensures MoneyIsMapped(times100, (settled + pending)[i], (a + b)[i])
    {
      MoneyOfOne(rt, times100, (settled + pending)[i], if i < |a| then Settled else Pending);
    }
  }
}
