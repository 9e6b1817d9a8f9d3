/**
 Smooth weighted round-robin, told without its data structure.

 A schedule is a sequence of picks over the nodes 0..|w|. Every node starts with its weight as credit; a pick must
 be a positive-weight node of greatest credit; the picked node pays the total weight, then every node earns its
 weight. Ties may be broken in any way: every theorem here holds for every such schedule, so it does not depend on
 how a multimap orders equal keys.
 */
module SmoothSchedule {

  // ---- sums and counts

  function SumTo(s: seq<int>, n: nat): int
    requires n <= |s|
  {
    if n == 0 then 0 else SumTo(s, n - 1) + s[n - 1]
  }

  function Total(w: seq<nat>): int {
    SumTo(w, |w|)
  }

  function Hits(picks: seq<nat>, i: nat): nat {
    if picks == [] then 0 else
    Hits(picks[..|picks| - 1], i) + if picks[|picks| - 1] == i then 1 else 0
  }

  function HitCounts(picks: seq<nat>, n: nat): (h: seq<nat>)
    ensures |h| == n && forall i :: 0 <= i < n ==> h[i] == Hits(picks, i)
  {
    seq(n, i requires 0 <= i < n => Hits(picks, i))
  }

  function Positive(w: seq<nat>, n: nat): nat
    requires n <= |w|
  {
    if n == 0 then 0 else Positive(w, n - 1) + if w[n - 1] > 0 then 1 else 0
  }

  lemma Distribute(a: int, b: int, c: int)
    ensures (a + b) * c == a * c + b * c
  {
  }

  lemma MultiplyLeq(k: nat, a: int, b: int)
    requires a <= b
    ensures k * a <= k * b
  {
  }

  lemma {:induction false} SumNonNegative(w: seq<nat>, n: nat)
    requires n <= |w|
    ensures 0 <= SumTo(w, n)
    ensures forall i :: 0 <= i < n ==> w[i] <= SumTo(w, n)
  {
    if n > 0 { SumNonNegative(w, n - 1); }
  }

  lemma {:induction false} SumAtMostZero(c: seq<int>, n: nat)
    requires n <= |c| && forall i :: 0 <= i < n ==> c[i] <= 0
    ensures SumTo(c, n) <= 0
  {
    if n > 0 { SumAtMostZero(c, n - 1); }
  }

  lemma {:induction false} PointwiseFromSum(a: seq<int>, b: seq<int>, n: nat)
    requires n <= |a| == |b| && forall i :: 0 <= i < n ==> a[i] <= b[i]
    ensures SumTo(a, n) <= SumTo(b, n)
    ensures SumTo(a, n) == SumTo(b, n) ==> forall i :: 0 <= i < n ==> a[i] == b[i]
  {
    if n > 0 { PointwiseFromSum(a, b, n - 1); }
  }

  lemma {:induction false} SlackOfOne(a: seq<int>, b: seq<int>, n: nat, k: nat)
    requires n <= |a| == |b| && k < |a| && forall i :: 0 <= i < |a| ==> a[i] <= b[i]
    ensures SumTo(b, n) >= SumTo(a, n) + if k < n then b[k] - a[k] else 0
  {
    if n > 0 { SlackOfOne(a, b, n - 1, k); }
  }

  lemma HitsOfPush(q: seq<nat>, p: nat, i: nat)
    ensures Hits(q + [p], i) == Hits(q, i) + if i == p then 1 else 0
  {
    assert (q + [p])[..|q|] == q;
  }

  lemma {:induction false} HitsOfConcat(a: seq<nat>, b: seq<nat>, i: nat)
    ensures Hits(a + b, i) == Hits(a, i) + Hits(b, i)
  {
    if b == [] {
      assert a + b == a;
    } else {
      assert (a + b)[..|a + b| - 1] == a + b[..|b| - 1];
      HitsOfConcat(a, b[..|b| - 1], i);
    }
  }

  lemma {:induction false} HitAtSomeIndex(picks: seq<nat>, i: nat) returns (k: nat)
    requires Hits(picks, i) > 0
    ensures k < |picks| && picks[k] == i
  {
    k := |picks| - 1;
    if picks[k] != i { k := HitAtSomeIndex(picks[..k], i); }
  }

  lemma {:induction false} HitCountsOfPush(q: seq<nat>, p: nat, n: nat, k: nat)
    requires k <= n
    ensures SumTo(HitCounts(q + [p], n), k) == SumTo(HitCounts(q, n), k) + if p < k then 1 else 0
  {
    if k > 0 {
      HitCountsOfPush(q, p, n, k - 1);
      HitsOfPush(q, p, k - 1);
    }
  }

  lemma {:induction false} ZeroHits(n: nat, k: nat)
    requires k <= n
    ensures SumTo(HitCounts([], n), k) == 0
  {
    if k > 0 { ZeroHits(n, k - 1); }
  }

  /** Every pick hits exactly one node. */
  lemma {:induction false} HitsSumToLength(picks: seq<nat>, n: nat)
    requires forall i :: 0 <= i < |picks| ==> picks[i] < n
    ensures SumTo(HitCounts(picks, n), n) == |picks|
  {
    if picks == [] {
      ZeroHits(n, n);
    } else {
      var q, p := picks[..|picks| - 1], picks[|picks| - 1];
      assert picks == q + [p];
      HitsSumToLength(q, n);
      HitCountsOfPush(q, p, n, n);
    }
  }

  // ---- schedules

  function Credit(w: seq<nat>, picks: seq<nat>, i: nat): int
    requires i < |w|
  {
    if picks == [] then w[i] else
    Credit(w, picks[..|picks| - 1], i) + w[i] - if picks[|picks| - 1] == i then Total(w) else 0
  }

  function Credits(w: seq<nat>, picks: seq<nat>): (c: seq<int>)
    ensures |c| == |w| && forall i :: 0 <= i < |w| ==> c[i] == Credit(w, picks, i)
  {
    seq(|w|, i requires 0 <= i < |w| => Credit(w, picks, i))
  }

  ghost predicate IsPick(w: seq<nat>, picks: seq<nat>, p: nat) {
    && p < |w| && w[p] > 0
    && forall j: nat :: j < |w| && w[j] > 0 ==> Credit(w, picks, j) <= Credit(w, picks, p)
  }

  ghost predicate Smooth(w: seq<nat>, picks: seq<nat>) {
    picks == [] ||
    var q := picks[..|picks| - 1];
    Smooth(w, q) && IsPick(w, q, picks[|picks| - 1])
  }

  lemma SmoothPush(w: seq<nat>, q: seq<nat>, p: nat)
    requires Smooth(w, q) && IsPick(w, q, p)
    ensures Smooth(w, q + [p])
  {
    assert (q + [p])[..|q|] == q;
  }

  lemma CreditOfPush(w: seq<nat>, q: seq<nat>, p: nat, i: nat)
    requires i < |w|
    ensures Credit(w, q + [p], i) == Credit(w, q, i) + w[i] - if i == p then Total(w) else 0
  {
    assert (q + [p])[..|q|] == q;
  }

  /** The closed form of a running key: what was earned in all rounds less what was paid for the picks. */
  lemma {:induction false} CreditClosedForm(w: seq<nat>, picks: seq<nat>, i: nat)
    requires i < |w|
    ensures Credit(w, picks, i) == w[i] * (|picks| + 1) - Total(w) * Hits(picks, i)
  {
    if picks != [] {
      var q, p := picks[..|picks| - 1], picks[|picks| - 1];
      assert picks == q + [p];
      CreditClosedForm(w, q, i);
      HitsOfPush(q, p, i);
      NextProduct(w[i], |q| + 1);
      NextProduct(Total(w), Hits(q, i));
    }
  }

  lemma NextProduct(a: int, n: int)
    ensures a * (n + 1) == a * n + a
  {
  }

  // ---- what every schedule keeps

  lemma {:induction false} PicksArePositive(w: seq<nat>, picks: seq<nat>)
    requires Smooth(w, picks)
    ensures forall i :: 0 <= i < |picks| ==> picks[i] < |w| && w[picks[i]] > 0
    ensures forall i: nat :: i < |w| && w[i] == 0 ==> Hits(picks, i) == 0 && Credit(w, picks, i) == 0
  {
    if picks != [] {
      var q, p := picks[..|picks| - 1], picks[|picks| - 1];
      assert picks == q + [p];
      PicksArePositive(w, q);
      forall i: nat | i < |w| && w[i] == 0 ensures Hits(picks, i) == 0 { HitsOfPush(q, p, i); }
    }
  }

  lemma {:induction false} CreditsSumOfPush(w: seq<nat>, q: seq<nat>, p: nat, n: nat)
    requires n <= |w|
    ensures SumTo(Credits(w, q + [p]), n) == SumTo(Credits(w, q), n) + SumTo(w, n) - if p < n then Total(w) else 0
  {
    if n > 0 {
      CreditsSumOfPush(w, q, p, n - 1);
      CreditOfPush(w, q, p, n - 1);
    }
  }

  /** Conservation: whatever was picked, the credits of all nodes sum to the total weight. */
  lemma {:induction false} CreditsSumToTotal(w: seq<nat>, picks: seq<nat>)
    requires Smooth(w, picks)
    ensures SumTo(Credits(w, picks), |w|) == Total(w)
  {
    if picks == [] {
      assert Credits(w, picks) == w;
    } else {
      var q, p := picks[..|picks| - 1], picks[|picks| - 1];
      assert picks == q + [p];
      CreditsSumToTotal(w, q);
      CreditsSumOfPush(w, q, p, |w|);
    }
  }

  lemma PickedCreditPositive(w: seq<nat>, picks: seq<nat>, p: nat)
    requires Smooth(w, picks) && IsPick(w, picks, p)
    ensures Credit(w, picks, p) > 0
  {
    if Credit(w, picks, p) <= 0 {
      CreditsSumToTotal(w, picks);
      PicksArePositive(w, picks);
      SumNonNegative(w, |w|);
      SumAtMostZero(Credits(w, picks), |w|);
      assert false;
    }
  }

  /** The strict lower bound on every running key. */
  lemma {:induction false} CreditLowerBound(w: seq<nat>, picks: seq<nat>, i: nat)
    requires Smooth(w, picks) && i < |w| && Total(w) > 0
    ensures Credit(w, picks, i) > w[i] - Total(w)
  {
    if picks != [] {
      var q, p := picks[..|picks| - 1], picks[|picks| - 1];
      CreditLowerBound(w, q, i);
      PickedCreditPositive(w, q, p);
    }
  }

  // The least integers above the lower bound, as a sequence: w[i] - c for a positive weight, 0 otherwise.
  function Floors(w: seq<nat>, c: int): (f: seq<int>)
    ensures |f| == |w| && forall i :: 0 <= i < |w| ==> f[i] == if w[i] > 0 then w[i] - c else 0
  {
    seq(|w|, i requires 0 <= i < |w| => if w[i] > 0 then w[i] - c else 0)
  }

  lemma {:induction false} FloorsSum(w: seq<nat>, c: int, n: nat)
    requires n <= |w|
    ensures SumTo(Floors(w, c), n) == SumTo(w, n) - Positive(w, n) * c
  {
    if n > 0 {
      FloorsSum(w, c, n - 1);
      Distribute(Positive(w, n - 1), if w[n - 1] > 0 then 1 else 0, c);
    }
  }

  lemma CreditsAboveFloors(w: seq<nat>, picks: seq<nat>)
    requires Smooth(w, picks) && Total(w) > 0
    ensures forall j :: 0 <= j < |w| ==> Floors(w, Total(w) - 1)[j] <= Credits(w, picks)[j]
  {
    PicksArePositive(w, picks);
    forall j | 0 <= j < |w| ensures Floors(w, Total(w) - 1)[j] <= Credits(w, picks)[j] {
      CreditLowerBound(w, picks, j);
    }
  }

  /** The upper bound on every running key, with m the number of positive-weight nodes. */
  lemma CreditUpperBound(w: seq<nat>, picks: seq<nat>, i: nat)
    requires Smooth(w, picks) && i < |w| && w[i] > 0
    ensures Credit(w, picks, i) <= w[i] + (Positive(w, |w|) - 1) * (Total(w) - 1)
  {
    SumNonNegative(w, |w|);
    var c := Total(w) - 1;
    CreditsAboveFloors(w, picks);
    SlackOfOne(Floors(w, c), Credits(w, picks), |w|, i);
    FloorsSum(w, c, |w|);
    CreditsSumToTotal(w, picks);
    Distribute(Positive(w, |w|), -1, c);
  }

  /** Fairness of every prefix: after t picks node i was picked fewer than w[i]*t/W + 1 times, and at least
      (w[i]*t - (m-1)(W-1)) / W times. */
  lemma PrefixFairness(w: seq<nat>, picks: seq<nat>, i: nat)
    requires Smooth(w, picks) && i < |w| && w[i] > 0
    ensures Total(w) * Hits(picks, i) < w[i] * |picks| + Total(w)
    ensures Total(w) * Hits(picks, i) >= w[i] * |picks| - (Positive(w, |w|) - 1) * (Total(w) - 1)
  {
    SumNonNegative(w, |w|);
    CreditLowerBound(w, picks, i);
    CreditUpperBound(w, picks, i);
    CreditClosedForm(w, picks, i);
    NextProduct(w[i], |picks|);
  }

  lemma HitsAtMostWeight(w: seq<nat>, picks: seq<nat>, i: nat)
    requires Smooth(w, picks) && |picks| == Total(w) && i < |w|
    ensures Hits(picks, i) <= w[i]
  {
    PicksArePositive(w, picks);
    SumNonNegative(w, |w|);
    if w[i] > 0 {
      CreditLowerBound(w, picks, i);
      CreditClosedForm(w, picks, i);
      HitsFromCredit(Total(w), w[i], Hits(picks, i));
    }
  }

  lemma HitsFromCredit(total: int, weight: int, hits: int)
    requires total > 0 && weight * (total + 1) - total * hits > weight - total
    ensures hits <= weight
  {
    NextProduct(weight, total);
    NextProduct(total, weight);
    if hits > weight {
      MultiplyLeq(total, weight + 1, hits);
      assert false;
    }
  }

  /** After W picks no node can have more than its weight, so by counting each has exactly its weight. */
  lemma FullRoundIsExact(w: seq<nat>, picks: seq<nat>)
    requires Smooth(w, picks) && |picks| == Total(w)
    ensures forall i: nat :: i < |w| ==> Hits(picks, i) == w[i]
  {
    PicksArePositive(w, picks);
    HitsSumToLength(picks, |w|);
    var h := HitCounts(picks, |w|);
    forall i: nat | i < |w| ensures h[i] <= w[i] { HitsAtMostWeight(w, picks, i); }
    PointwiseFromSum(h, w, |w|);
    assert forall i: nat :: i < |w| ==> h[i] == w[i];
  }

  /** ... and the running keys are back at the weights they started from. */
  lemma FullRoundRestoresCredits(w: seq<nat>, picks: seq<nat>)
    requires Smooth(w, picks) && |picks| == Total(w)
    ensures Credits(w, picks) == w
  {
    FullRoundIsExact(w, picks);
    forall i: nat | i < |w| ensures Credit(w, picks, i) == w[i] {
      CreditClosedForm(w, picks, i);
      EarnedEqualsPaid(w[i], Total(w));
    }
  }

  lemma EarnedEqualsPaid(weight: int, total: int)
    ensures weight * (total + 1) - total * weight == weight
  {
  }
}
