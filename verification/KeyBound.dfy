/**
 How large a running key can get: at most W * H(n), with H the harmonic numbers. For every k, the k largest keys
 together stay below a cap; when the picked node is outside such a set, it was at least as large as their average,
 so the set grown by it had a smaller average, and the set's sum is bounded by the cap of the larger set.
 */
module KeyBound {
  import opened SmoothSchedule

  // ---- sums over some of the nodes

  function SumWhere(c: seq<int>, chosen: seq<bool>, n: nat): int
    requires n <= |c| == |chosen|
  {
    if n == 0 then 0 else SumWhere(c, chosen, n - 1) + if chosen[n - 1] then c[n - 1] else 0
  }

  function CountWhere(chosen: seq<bool>, n: nat): (k: nat)
    requires n <= |chosen|
    ensures k <= n
  {
    if n == 0 then 0 else CountWhere(chosen, n - 1) + if chosen[n - 1] then 1 else 0
  }

  lemma {:induction false} SumOfChosen(w: seq<nat>, chosen: seq<bool>, n: nat)
    requires n <= |w| == |chosen|
    ensures 0 <= SumWhere(w, chosen, n) <= SumTo(w, n)
  {
    if n > 0 { SumOfChosen(w, chosen, n - 1); }
  }

  lemma {:induction false} SumOfAll(c: seq<int>, chosen: seq<bool>, n: nat)
    requires n <= |c| == |chosen| && CountWhere(chosen, n) == n
    ensures SumWhere(c, chosen, n) == SumTo(c, n)
  {
    if n > 0 { SumOfAll(c, chosen, n - 1); }
  }

  lemma {:induction false} SumAtMostCount(c: seq<int>, chosen: seq<bool>, n: nat, most: int)
    requires n <= |c| == |chosen| && forall i :: 0 <= i < n ==> c[i] <= most
    ensures SumWhere(c, chosen, n) <= CountWhere(chosen, n) * most
  {
    if n > 0 {
      SumAtMostCount(c, chosen, n - 1, most);
      Distribute(CountWhere(chosen, n - 1), 1, most);
    }
  }

  lemma {:induction false} OneMoreChosen(c: seq<int>, chosen: seq<bool>, n: nat, p: nat)
    requires n <= |c| == |chosen| && p < |c| && !chosen[p]
    ensures SumWhere(c, chosen[p := true], n) == SumWhere(c, chosen, n) + if p < n then c[p] else 0
    ensures CountWhere(chosen[p := true], n) == CountWhere(chosen, n) + if p < n then 1 else 0
  {
    if n > 0 { OneMoreChosen(c, chosen, n - 1, p); }
  }

  function Only(i: nat, n: nat): (chosen: seq<bool>)
    ensures |chosen| == n && forall j :: 0 <= j < n ==> (chosen[j] <==> j == i)
  {
    seq(n, j requires 0 <= j < n => j == i)
  }

  lemma {:induction false} SumOfOnly(c: seq<int>, i: nat, n: nat)
    requires n <= |c|
    ensures SumWhere(c, Only(i, |c|), n) == if i < n then c[i] else 0
    ensures CountWhere(Only(i, |c|), n) == if i < n then 1 else 0
  {
    if n > 0 { SumOfOnly(c, i, n - 1); }
  }

  lemma {:induction false} SumAfterPick(w: seq<nat>, q: seq<nat>, p: nat, chosen: seq<bool>, n: nat)
    requires n <= |w| == |chosen| && p < |w|
    ensures SumWhere(Credits(w, q + [p]), chosen, n)
      == SumWhere(Credits(w, q), chosen, n) + SumWhere(w, chosen, n) - if p < n && chosen[p] then Total(w) else 0
  {
    if n > 0 {
      SumAfterPick(w, q, p, chosen, n - 1);
      CreditOfPush(w, q, p, n - 1);
    }
  }

  // ---- the caps

  function Harmonic(n: nat): real {
    if n == 0 then 0.0 else Harmonic(n - 1) + 1.0 / n as real
  }

  lemma {:induction false} HarmonicGrows(k: nat, n: nat)
    requires k <= n
    ensures Harmonic(k) <= Harmonic(n)
  {
    if k < n { HarmonicGrows(k, n - 1); }
  }

  /** What the keys of k nodes can sum to at most, of n nodes of total weight `total`. */
  function Cap(total: int, n: nat, k: nat): real {
    total as real * (k as real * (Harmonic(n) - Harmonic(k)) + 1.0)
  }

  lemma CapIsLarge(total: nat, n: nat, k: nat)
    requires k <= n
    ensures Cap(total, n, k) >= total as real
  {
    HarmonicGrows(k, n);
    TimesPositive(k as real, Harmonic(n) - Harmonic(k));
    TimesPositive(total as real, k as real * (Harmonic(n) - Harmonic(k)));
  }

  lemma TimesPositive(a: real, b: real)
    requires a >= 0.0 && b >= 0.0
    ensures a * b >= 0.0 && a * (b + 1.0) >= a
  {
  }

  /** A set of k keys outside of which the largest key lies. */
  lemma SmallerSet(total: nat, n: nat, k: nat, sum: int, top: int)
    requires k < n && sum <= k * top && (sum + top) as real <= Cap(total, n, k + 1)
    ensures (sum + total) as real <= Cap(total, n, k)
  {
    var d, t := Harmonic(n) - Harmonic(k), total as real;
    var k1 := (k + 1) as real;
    NextCap(k1, Harmonic(n), Harmonic(k), Harmonic(k + 1));
    assert Cap(total, n, k + 1) == t * (k1 * d);
    assert (k + 1) * sum <= k * (sum + top);
    Average(k as real, sum as real, (sum + top) as real, t, d);
    assert t * (k as real * d + 1.0) == t * (k as real * d) + t;
  }

  lemma NextCap(k1: real, hn: real, hk: real, hk1: real)
    requires k1 > 0.0 && hk1 == hk + 1.0 / k1
    ensures k1 * (hn - hk1) + 1.0 == k1 * (hn - hk)
  {
    assert k1 * (1.0 / k1) == 1.0;
    assert k1 * (hn - hk1) == k1 * (hn - hk) - k1 * (1.0 / k1);
  }

  lemma Average(k: real, sum: real, more: real, t: real, d: real)
    requires k >= 0.0 && (k + 1.0) * sum <= k * more && more <= t * ((k + 1.0) * d)
    ensures sum <= t * (k * d)
  {
    var right := t * ((k + 1.0) * d);
    TimesKeepsOrder(k, more, right);
    assert k * right == (k + 1.0) * (t * (k * d));
    assert (k + 1.0) * sum <= (k + 1.0) * (t * (k * d));
    DivideBoth(k + 1.0, sum, t * (k * d));
  }

  lemma TimesKeepsOrder(k: real, a: real, b: real)
    requires k >= 0.0 && a <= b
    ensures k * a <= k * b
  {
  }

  lemma DivideBoth(k: real, a: real, b: real)
    requires k > 0.0 && k * a <= k * b
    ensures a <= b
  {
  }

  // ---- the invariant

  lemma AllAtMostPicked(w: seq<nat>, q: seq<nat>, p: nat)
    requires Smooth(w, q) && IsPick(w, q, p)
    ensures forall i :: 0 <= i < |w| ==> Credits(w, q)[i] <= Credit(w, q, p)
  {
    PicksArePositive(w, q);
    PickedCreditPositive(w, q, p);
  }

  /** The keys of any k nodes sum to at most the cap for k. */
  lemma {:induction false} AnySetIsCapped(w: seq<nat>, picks: seq<nat>, chosen: seq<bool>)
    requires Smooth(w, picks) && |chosen| == |w|
    ensures SumWhere(Credits(w, picks), chosen, |w|) as real <= Cap(Total(w), |w|, CountWhere(chosen, |w|))
    decreases |picks|
  {
    var n, k := |w|, CountWhere(chosen, |w|);
    SumOfChosen(w, chosen, n);
    CapIsLarge(Total(w), n, k);
    if k == n {
      SumOfAll(Credits(w, picks), chosen, n);
      CreditsSumToTotal(w, picks);
    } else if picks == [] {
      assert Credits(w, picks) == w;
    } else {
      var q, p := picks[..|picks| - 1], picks[|picks| - 1];
      assert picks == q + [p];
      SumAfterPick(w, q, p, chosen, n);
      if chosen[p] {
        AnySetIsCapped(w, q, chosen);
      } else {
        AnySetIsCapped(w, q, chosen[p := true]);
        OneMoreChosen(Credits(w, q), chosen, n, p);
        AllAtMostPicked(w, q, p);
        SumAtMostCount(Credits(w, q), chosen, n, Credit(w, q, p));
        SmallerSet(Total(w), n, k, SumWhere(Credits(w, q), chosen, n), Credit(w, q, p));
      }
    }
  }

  /** total * H(n), term by term. */
  function HarmonicShare(total: int, n: nat): real {
    if n == 0 then 0.0 else HarmonicShare(total, n - 1) + total as real / n as real
  }

  lemma {:induction false} ShareIsProduct(total: int, n: nat)
    ensures HarmonicShare(total, n) == total as real * Harmonic(n)
  {
    if n > 0 {
      ShareIsProduct(total, n - 1);
      OneShare(total as real, n as real, Harmonic(n - 1));
    }
  }

  lemma OneShare(t: real, n: real, h: real)
    requires n > 0.0
    ensures t * (h + 1.0 / n) == t * h + t / n
  {
  }

  lemma CapOfOne(total: int, n: nat)
    ensures Cap(total, n, 1) == HarmonicShare(total, n)
  {
    ShareIsProduct(total, n);
    assert Harmonic(1) == Harmonic(0) + 1.0;
    assert 1.0 * (Harmonic(n) - Harmonic(1)) + 1.0 == Harmonic(n);
  }

  /** No running key ever exceeds W * H(n). */
  lemma KeyAtMostHarmonic(w: seq<nat>, picks: seq<nat>, i: nat)
    requires Smooth(w, picks) && i < |w|
    ensures Credit(w, picks, i) as real <= HarmonicShare(Total(w), |w|)
  {
    AnySetIsCapped(w, picks, Only(i, |w|));
    SumOfOnly(Credits(w, picks), i, |w|);
    CapOfOne(Total(w), |w|);
  }

  // ---- a bound in integers

  /** How often n can be halved before it is zero. */
  function Halvings(n: nat): nat {
    if n == 0 then 0 else 1 + Halvings(n / 2)
  }

  lemma {:induction false} HarmonicTail(m: nat, j: nat)
    ensures Harmonic(m + j) <= Harmonic(m) + j as real / (m + 1) as real
  {
    if j > 0 {
      HarmonicTail(m, j - 1);
      Reciprocal((m + 1) as real, (m + j) as real);
      assert (j - 1) as real / (m + 1) as real + 1.0 / (m + 1) as real == j as real / (m + 1) as real;
    }
  }

  lemma Reciprocal(a: real, b: real)
    requires 0.0 < a <= b
    ensures 1.0 / b <= 1.0 / a
  {
  }

  lemma {:induction false} HarmonicAtMostHalvings(n: nat)
    ensures Harmonic(n) <= Halvings(n) as real
  {
    if n > 0 {
      var m := n / 2;
      HarmonicAtMostHalvings(m);
      HarmonicTail(m, n - m);
      AtMostOne((n - m) as real, (m + 1) as real);
    }
  }

  lemma AtMostOne(a: real, b: real)
    requires a <= b && b > 0.0
    ensures a / b <= 1.0
  {
  }

  lemma ShareFactor(total: int, n: nat) returns (h: real)
    ensures h == Harmonic(n) && HarmonicShare(total, n) == total as real * h
  {
    h := Harmonic(n);
    ShareIsProduct(total, n);
  }

  lemma ShareAtMost(total: nat, n: nat, steps: nat)
    requires Harmonic(n) <= steps as real
    ensures HarmonicShare(total, n) <= (total * steps) as real
  {
    var h := ShareFactor(total, n);
    RoundUp(total, h, steps);
  }

  lemma RoundUp(total: nat, h: real, steps: nat)
    requires h <= steps as real
    ensures total as real * h <= (total * steps) as real
  {
    TimesKeepsOrder(total as real, h, steps as real);
    assert total as real * steps as real == (total * steps) as real;
  }

  /** In integers: no key exceeds W times the number of halvings of n. */
  lemma KeyAtMostHalvings(w: seq<nat>, picks: seq<nat>, i: nat, steps: nat)
    requires Smooth(w, picks) && i < |w| && Halvings(|w|) <= steps
    ensures Credit(w, picks, i) <= Total(w) * steps
  {
    KeyAtMostHarmonic(w, picks, i);
    SumNonNegative(w, |w|);
    HarmonicAtMostHalvings(|w|);
    ShareAtMost(Total(w), |w|, steps);
  }

  /** So no prefix of t picks leaves a node more than the halvings of n behind its share: node i was picked at least
      w[i] * (t + 1) / W - steps times. */
  lemma PickedOftenEnough(w: seq<nat>, picks: seq<nat>, i: nat, steps: nat)
    requires Smooth(w, picks) && i < |w| && Halvings(|w|) <= steps
    ensures Total(w) * Hits(picks, i) >= w[i] * (|picks| + 1) - Total(w) * steps
  {
    KeyAtMostHalvings(w, picks, i, steps);
    CreditClosedForm(w, picks, i);
  }

  function PowerOfTwo(e: nat): (p: nat)
    ensures p > 0
  {
    if e == 0 then 1 else 2 * PowerOfTwo(e - 1)
  }

  lemma {:induction false} HalvingsBelow(n: nat, e: nat)
    requires n < PowerOfTwo(e)
    ensures Halvings(n) <= e
  {
    if n > 0 { HalvingsBelow(n / 2, e - 1); }
  }
}
