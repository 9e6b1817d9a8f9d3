/**
 The weighted router of EndpointManager: static weights are scaled, a multimap runs the smooth weighted
 round-robin, and the picks fill a cache that selection walks with a rotating position.
 */
module WeightedRouter {
  import opened KeyBound
  import opened SmoothSchedule

  const MIN_WEIGHT_LIMIT: nat := 10
  const MAX_WEIGHT_LIMIT: nat := 100

  type int32 = x: int | -0x8000_0000 <= x < 0x8000_0000

  // ---- scaling

  function MaxOf(v: seq<nat>): (m: nat)
    requires v != []
    ensures m in v && forall i :: 0 <= i < |v| ==> v[i] <= m
  {
    if |v| == 1 then v[0] else
    var m := MaxOf(v[..|v| - 1]);
    if v[|v| - 1] > m then v[|v| - 1] else m
  }

  function MinOf(v: seq<nat>): (m: nat)
    requires v != []
    ensures m in v && forall i :: 0 <= i < |v| ==> m <= v[i]
  {
    if |v| == 1 then v[0] else
    var m := MinOf(v[..|v| - 1]);
    if v[|v| - 1] < m then v[|v| - 1] else m
  }

  /** The scale: the ratio of the greatest to the least weight, clamped. A zero weight switches scaling off. */
  function Ratio(v: seq<nat>): nat
    requires v != []
  {
    if MinOf(v) == 0 then 1 else
    var r := MaxOf(v) / MinOf(v);
    if r < MIN_WEIGHT_LIMIT then MIN_WEIGHT_LIMIT
    else if r > MAX_WEIGHT_LIMIT then MAX_WEIGHT_LIMIT
    else r
  }

  function Divisor(v: seq<nat>): (d: nat)
    requires v != []
    ensures d > 0
  {
    if MinOf(v) == 0 then 1 else MaxOf(v)
  }

  function ScaledWeight(weight: nat, ratio: nat, divisor: nat): nat
    requires divisor > 0
  {
    DivideOrdered(0, weight * ratio, divisor);
    (weight * ratio) / divisor
  }

  function ScaledPrefix(v: seq<nat>, ratio: nat, divisor: nat, n: nat): (w: seq<nat>)
    requires divisor > 0 && n <= |v|
    ensures |w| == n
  {
    if n == 0 then [] else ScaledPrefix(v, ratio, divisor, n - 1) + [ScaledWeight(v[n - 1], ratio, divisor)]
  }

  function Scaled(v: seq<nat>): (w: seq<nat>)
    requires v != []
    ensures |w| == |v|
  {
    ScaledPrefix(v, Ratio(v), Divisor(v), |v|)
  }

  lemma {:induction false} ScaledAt(v: seq<nat>, ratio: nat, divisor: nat, n: nat, i: nat)
    requires divisor > 0 && i < n <= |v|
    ensures ScaledPrefix(v, ratio, divisor, n)[i] == ScaledWeight(v[i], ratio, divisor)
  {
    if i < n - 1 { ScaledAt(v, ratio, divisor, n - 1, i); }
  }

  /** For the positive weights that selection keeps: the heaviest node gets the whole ratio, the order of the
      weights survives, and a node is scaled to zero exactly when the ratio cannot lift it over the maximum. */
  lemma ScalingKeepsOrder(v: seq<nat>, r: nat, m: nat, i: nat, j: nat)
    requires i < |v| && j < |v| && MinOf(v) > 0 && r == Ratio(v) && m == MaxOf(v)
    ensures MIN_WEIGHT_LIMIT <= r <= MAX_WEIGHT_LIMIT && Scaled(v)[i] <= r
    ensures v[i] == m ==> Scaled(v)[i] == r
    ensures v[i] <= v[j] ==> Scaled(v)[i] <= Scaled(v)[j]
    ensures Scaled(v)[i] == 0 <==> v[i] * r < m
  {
    PrefixInOrder(v, r, m, i, j);
  }

  /** A scaled weight is weight * ratio / maximum, rounded down. */
  lemma ScaledIsFloor(v: seq<nat>, r: nat, m: nat, i: nat)
    requires i < |v| && MinOf(v) > 0 && r == Ratio(v) && m == MaxOf(v)
    ensures Scaled(v)[i] * m <= v[i] * r < (Scaled(v)[i] + 1) * m
  {
    PrefixIsFloor(v, r, m, i);
  }

  lemma PrefixIsFloor(v: seq<nat>, r: nat, m: nat, i: nat)
    requires i < |v| && m > 0
    ensures ScaledPrefix(v, r, m, |v|)[i] * m <= v[i] * r < (ScaledPrefix(v, r, m, |v|)[i] + 1) * m
  {
    ScaledAt(v, r, m, |v|, i);
    QuotientBounds(v[i] * r, m, ScaledWeight(v[i], r, m));
  }

  lemma QuotientBounds(x: nat, d: nat, q: nat)
    requires d > 0 && q == x / d
    ensures q * d <= x < (q + 1) * d
  {
    assert x == d * q + x % d;
    DistributeOne(d, q);
  }

  /** With a weight of zero among them the weights stay as they are. */
  lemma {:induction false} ZeroSwitchesScalingOff(v: seq<nat>, n: nat)
    requires n <= |v|
    ensures ScaledPrefix(v, 1, 1, n) == v[..n]
    ensures n == |v| > 0 && MinOf(v) == 0 ==> Scaled(v) == v
  {
    if n > 0 { ZeroSwitchesScalingOff(v, n - 1); }
  }

  /** The ratio is the greatest weight over the least, rounded down, between its limits. */
  lemma RatioIsClamped(v: seq<nat>, r: nat, least: nat, m: nat)
    requires v != [] && least == MinOf(v) > 0 && r == Ratio(v) && m == MaxOf(v)
    ensures m < 11 * least ==> r == 10
    ensures m >= 100 * least ==> r == 100
    ensures 11 * least <= m < 100 * least ==> r * least <= m < (r + 1) * least
  {
    QuotientBounds(m, least, m / least);
    QuotientFrom(m, least, m / least);
  }

  lemma QuotientFrom(x: nat, d: nat, q: nat)
    requires d > 0 && q * d <= x < (q + 1) * d
    ensures q >= 11 <==> x >= 11 * d
    ensures q >= 100 <==> x >= 100 * d
  {
    AtLeast(x, d, q, 11);
    AtLeast(x, d, q, 100);
  }

  lemma AtLeast(x: nat, d: nat, q: nat, k: nat)
    requires d > 0 && q * d <= x < (q + 1) * d
    ensures q >= k <==> x >= k * d
  {
    if q >= k { MultiplyLeq(d, k, q); } else { MultiplyLeq(d, q + 1, k); }
  }

  /** So in a cache a node occurs weight * ratio / maximum times, rounded down, but once at least. */
  lemma CacheShares(cache: seq<nat>, v: seq<nat>, r: nat, m: nat, i: nat)
    requires i < |v| && MinOf(v) > 0 && r == Ratio(v) && m == MaxOf(v) && Exact(cache, Scaled(v))
    ensures v[i] * r < m ==> Hits(cache, i) == 1
    ensures v[i] * r >= m ==> Hits(cache, i) * m <= v[i] * r < (Hits(cache, i) + 1) * m
  {
    ScaledIsFloor(v, r, m, i);
    ScalingKeepsOrder(v, r, m, i, i);
  }

  lemma PrefixInOrder(v: seq<nat>, r: nat, m: nat, i: nat, j: nat)
    requires i < |v| && j < |v| && m > 0 && v[i] <= m && v[j] <= m
    ensures var w := ScaledPrefix(v, r, m, |v|);
      && w[i] <= r && (v[i] == m ==> w[i] == r) && (v[i] <= v[j] ==> w[i] <= w[j])
      && (w[i] == 0 <==> v[i] * r < m)
  {
    ScaledAt(v, r, m, |v|, i);
    ScaledAt(v, r, m, |v|, j);
    ScalesInOrder(v[i], v[i], m, r);
    if v[i] <= v[j] { ScalesInOrder(v[i], v[j], m, r); }
  }

  lemma ScalesInOrder(a: nat, b: nat, m: nat, r: nat)
    requires a <= b <= m && m > 0
    ensures ScaledWeight(a, r, m) <= ScaledWeight(b, r, m) <= r
    ensures a == m ==> ScaledWeight(a, r, m) == r
    ensures ScaledWeight(a, r, m) == 0 <==> a * r < m
  {
    MultiplyLeq(r, a, b);
    MultiplyLeq(r, b, m);
    DivideOrdered(a * r, b * r, m);
    DivideOrdered(b * r, m * r, m);
    DivideExact(m, r, m * r);
  }

  lemma DivideOrdered(a: nat, b: nat, d: nat)
    requires a <= b && d > 0
    ensures 0 <= a / d <= b / d
    ensures a / d == 0 <==> a < d
  {
    var qa, qb := a / d, b / d;
    assert a == d * qa + a % d && b == d * qb + b % d;
    assert d * (qb + 1) == d * qb + d;
    if qa > qb { MultiplyLeq(d, qb + 1, qa); assert false; }
    if qa >= 1 { MultiplyLeq(d, 1, qa); }
  }

  lemma DivideExact(d: nat, q: nat, x: nat)
    requires d > 0 && x == d * q
    ensures x / d == q
  {
    var p := x / d;
    assert x == d * p + x % d;
    assert d * (p + 1) == d * p + d;
    if p < q { MultiplyLeq(d, p + 1, q); assert false; }
    if p > q { MultiplyLeq(d, q + 1, p); DistributeOne(d, q); assert false; }
  }

  lemma DistributeOne(d: nat, q: nat)
    ensures d * (q + 1) == d * q + d
  {
  }

  // ---- machine arithmetic of the running key

  const TWO32: int := 0x1_0000_0000
  const TWO64: int := 0x1_0000_0000_0000_0000

  function SizeT(x: int): nat {
    x % TWO64
  }

  function ToInt(x: nat): int32 {
    var low := x % TWO32;
    if low < 0x8000_0000 then low else low - TWO32
  }

  /** The picked node's key is computed in size_t, where it may wrap below zero, and then stored in an int. */
  function PickedKey(key: int32, w: nat, total: nat): int32 {
    ToInt(SizeT(SizeT(SizeT(key) - total) + w))
  }

  lemma PickedKeyIsExact(key: int32, w: nat, total: nat)
    requires -0x8000_0000 <= key - total + w < 0x8000_0000
    ensures PickedKey(key, w, total) == key - total + w
  {
    var k: int, t: int := key, total;
    WrapAdd(k, 0 - t);
    WrapAdd(k - t, w);
    ToIntUndoesSizeT(k - t + w);
  }

  lemma WrapAdd(a: int, b: int)
    ensures SizeT(SizeT(a) + b) == SizeT(a + b)
  {
  }

  lemma ToIntUndoesSizeT(x: int)
    requires -0x8000_0000 <= x < 0x8000_0000
    ensures ToInt(SizeT(x)) == x
  {
  }

  /** Keys of all nodes stay within a signed 32-bit int when this holds. */
  predicate KeysFit(w: seq<nat>) {
    Total(w) * Halvings(|w|) < 0x8000_0000
  }

  lemma CreditFits(w: seq<nat>, picks: seq<nat>, i: nat)
    requires Smooth(w, picks) && KeysFit(w) && i < |w| && w[i] > 0
    ensures -0x8000_0000 <= Credit(w, picks, i) < 0x8000_0000
  {
    KeyAtMostHalvings(w, picks, i, Halvings(|w|));
    TotalFits(w);
    SumNonNegative(w, |w|);
    CreditLowerBound(w, picks, i);
  }

  lemma TotalFits(w: seq<nat>)
    requires KeysFit(w) && w != []
    ensures 0 <= Total(w) < 0x8000_0000
  {
    SumNonNegative(w, |w|);
    MultiplyLeq(Total(w), 1, Halvings(|w|));
  }

  // ---- the multimap of running keys: ascending keys, equal keys in insertion order

  datatype Entry = Entry(key: int32, id: nat)

  type Multimap = seq<Entry>

  ghost predicate Ascending(mm: Multimap) {
    forall i, j :: 0 <= i < j < |mm| ==> mm[i].key <= mm[j].key
  }

  ghost predicate DistinctIds(mm: Multimap) {
    forall i, j :: 0 <= i < j < |mm| ==> mm[i].id != mm[j].id
  }

  function Ids(mm: Multimap): set<nat> {
    set e | e in mm :: e.id
  }

  function Insert(mm: Multimap, e: Entry): (r: Multimap)
    requires Ascending(mm)
    ensures Ascending(r) && |r| == |mm| + 1
    ensures forall x :: x in r <==> x in mm || x == e
    ensures DistinctIds(mm) && e.id !in Ids(mm) ==> DistinctIds(r)
    ensures Ids(r) == Ids(mm) + {e.id}
  {
    var k := UpperBound(mm, e.key);
    InsertedAt(mm, k, e);
    mm[..k] + [e] + mm[k..]
  }

  lemma InsertedAt(mm: Multimap, k: nat, e: Entry)
    requires k <= |mm|
    ensures var r := mm[..k] + [e] + mm[k..];
      && (forall x :: x in r <==> x in mm || x == e)
      && (DistinctIds(mm) && e.id !in Ids(mm) ==> DistinctIds(r))
      && Ids(r) == Ids(mm) + {e.id}
  {
    InsertedMembers(mm, k, e);
    InsertedIds(mm, mm[..k] + [e] + mm[k..], e);
    if DistinctIds(mm) && e.id !in Ids(mm) { InsertedDistinct(mm, k, e); }
  }

  lemma InsertedMembers(mm: Multimap, k: nat, e: Entry)
    requires k <= |mm|
    ensures forall x :: x in mm[..k] + [e] + mm[k..] <==> x in mm || x == e
  {
    assert mm == mm[..k] + mm[k..];
  }

  lemma InsertedIds(mm: Multimap, r: Multimap, e: Entry)
    requires forall x :: x in r <==> x in mm || x == e
    ensures Ids(r) == Ids(mm) + {e.id}
  {
    assert e in r;
    forall i | i in Ids(mm) ensures i in Ids(r) {
      var x :| x in mm && x.id == i;
      assert x in r;
    }
  }

  lemma InsertedDistinct(mm: Multimap, k: nat, e: Entry)
    requires k <= |mm| && DistinctIds(mm) && e.id !in Ids(mm)
    ensures DistinctIds(mm[..k] + [e] + mm[k..])
  {
    var r := mm[..k] + [e] + mm[k..];
    forall i | 0 <= i < |mm| ensures mm[i].id != e.id { assert mm[i] in mm; }
    forall i, j | 0 <= i < j < |r| ensures r[i].id != r[j].id {
      assert i != k ==> r[i] == mm[if i < k then i else i - 1];
      assert j != k ==> r[j] == mm[if j < k then j else j - 1];
    }
  }

  function UpperBound(mm: Multimap, key: int): (k: nat)
    requires Ascending(mm)
    ensures k <= |mm|
    ensures forall i :: 0 <= i < k ==> mm[i].key <= key
    ensures forall i :: k <= i < |mm| ==> key < mm[i].key
  {
    if mm == [] then 0
    else if mm[|mm| - 1].key <= key then |mm|
    else UpperBound(mm[..|mm| - 1], key)
  }

  /** The multimap holds exactly one entry for each positive-weight node, keyed by its credit. */
  ghost predicate HoldsCredits(mm: Multimap, w: seq<nat>, picks: seq<nat>) {
    && Ascending(mm) && DistinctIds(mm)
    && (forall e :: e in mm ==> e.id < |w| && w[e.id] > 0 && e.key == Credit(w, picks, e.id))
    && (forall i: nat :: i < |w| && w[i] > 0 ==> i in Ids(mm))
  }

  lemma LastIsPick(mm: Multimap, w: seq<nat>, picks: seq<nat>)
    requires HoldsCredits(mm, w, picks) && mm != []
    ensures IsPick(w, picks, mm[|mm| - 1].id)
  {
    var last := mm[|mm| - 1];
    forall j: nat | j < |w| && w[j] > 0
      ensures Credit(w, picks, j) <= Credit(w, picks, last.id)
    {
      var e :| e in mm && e.id == j;
    }
  }

  lemma IdsOfSuffix(mm: Multimap, k: nat)
    requires k < |mm| && DistinctIds(mm)
    ensures mm[k].id !in Ids(mm[k + 1..]) && Ids(mm[k..]) == Ids(mm[k + 1..]) + {mm[k].id}
  {
    assert mm[k..] == [mm[k]] + mm[k + 1..];
    forall i | i in Ids(mm[k + 1..]) ensures i in Ids(mm[k..]) {
      var x :| x in mm[k + 1..] && x.id == i;
      assert x in mm[k..];
    }
    assert mm[k] in mm[k..];
  }

  /** One round: walk the multimap from the greatest key down; the first node is picked and pays the total,
      and every node earns its weight, in a fresh multimap. */
  method Round(mm: Multimap, w: seq<nat>, total: nat, ghost picks: seq<nat>)
    returns (picked: nat, next: Multimap)
    requires mm != [] && HoldsCredits(mm, w, picks)
    requires Smooth(w, picks) && KeysFit(w) && total == Total(w)
    ensures IsPick(w, picks, picked) && Smooth(w, picks + [picked])
    ensures HoldsCredits(next, w, picks + [picked]) && next != []
  {
    LastIsPick(mm, w, picks);
    ghost var p := mm[|mm| - 1].id;
    ghost var after := picks + [p];
    SmoothPush(w, picks, p);
    var first := true;
    var k := |mm|;
    picked := 0;
    next := [];
    while k > 0
      invariant 0 <= k <= |mm|
      invariant first <==> k == |mm|
      invariant !first ==> picked == p
      invariant Ascending(next) && DistinctIds(next) && |next| == |mm| - k
      invariant Ids(next) == Ids(mm[k..])
      invariant forall e :: e in next ==> e.id < |w| && w[e.id] > 0 && e.key == Credit(w, after, e.id)
    {
      k := k - 1;
      var e := mm[k];
      assert e in mm;
      IdsOfSuffix(mm, k);
      CreditOfPush(w, picks, p, e.id);
      CreditFits(w, after, e.id);
      if first {
        first := false;
        picked := e.id;
        PickedKeyIsExact(e.key, w[e.id], total);
        next := Insert(next, Entry(PickedKey(e.key, w[e.id], total), e.id));
      } else {
        next := Insert(next, Entry(e.key + w[e.id], e.id));
      }
    }
    assert mm[0..] == mm;
  }

  function Remap<T>(vIndex: seq<T>, picks: seq<nat>): (r: seq<T>)
    requires forall i :: 0 <= i < |picks| ==> picks[i] < |vIndex|
    ensures |r| == |picks| && forall i :: 0 <= i < |picks| ==> r[i] == vIndex[picks[i]]
  {
    seq(|picks|, i requires 0 <= i < |picks| => vIndex[picks[i]])
  }

  function ZeroNodes(w: seq<nat>, n: nat): (z: seq<nat>)
    requires n <= |w|
    ensures forall i :: 0 <= i < |z| ==> z[i] < n && w[z[i]] == 0
  {
    if n == 0 then []
    else if w[n - 1] == 0 then ZeroNodes(w, n - 1) + [n - 1]
    else ZeroNodes(w, n - 1)
  }

  /** What the source promises of a router cache: every node is there as often as its scaled weight says, and a
      node scaled to zero is still there once. */
  ghost predicate Exact(cache: seq<nat>, w: seq<nat>) {
    && (forall i :: 0 <= i < |cache| ==> cache[i] < |w|)
    && (forall i: nat :: i < |w| ==> Hits(cache, i) == if w[i] > 0 then w[i] else 1)
  }

  lemma {:induction false} ZeroNodesHitOnce(w: seq<nat>, n: nat, i: nat)
    requires n <= |w| && i < |w|
    ensures Hits(ZeroNodes(w, n), i) == if i < n && w[i] == 0 then 1 else 0
  {
    if n > 0 {
      ZeroNodesHitOnce(w, n - 1, i);
      if w[n - 1] == 0 { HitsOfPush(ZeroNodes(w, n - 1), n - 1, i); }
    }
  }

  lemma CacheIsExact(w: seq<nat>, picks: seq<nat>)
    requires Smooth(w, picks) && |picks| == Total(w)
    ensures Exact(ZeroNodes(w, |w|) + picks, w)
  {
    var z := ZeroNodes(w, |w|);
    PicksArePositive(w, picks);
    FullRoundIsExact(w, picks);
    forall i: nat | i < |w| ensures Hits(z + picks, i) == if w[i] > 0 then w[i] else 1 {
      HitsOfConcat(z, picks, i);
      ZeroNodesHitOnce(w, |w|, i);
    }
  }

  lemma OneMoreWeight(v: seq<nat>, i: nat)
    requires 0 < i < |v|
    ensures MaxOf(v[..i + 1]) == if v[i] > MaxOf(v[..i]) then v[i] else MaxOf(v[..i])
    ensures MinOf(v[..i + 1]) == if v[i] < MinOf(v[..i]) then v[i] else MinOf(v[..i])
  {
    assert v[..i + 1][..i] == v[..i];
  }

  method Extremes(vWeight: seq<nat>) returns (maxWeight: nat, minWeight: nat)
    requires vWeight != []
    ensures maxWeight == MaxOf(vWeight) && minWeight == MinOf(vWeight)
  {
    maxWeight, minWeight := vWeight[0], vWeight[0];
    var i := 1;
    while i < |vWeight|
      invariant 1 <= i <= |vWeight|
      invariant maxWeight == MaxOf(vWeight[..i]) && minWeight == MinOf(vWeight[..i])
    {
      var weight := vWeight[i];
      OneMoreWeight(vWeight, i);
      if weight > maxWeight { maxWeight := weight; }
      if weight < minWeight { minWeight := weight; }
      i := i + 1;
    }
    assert vWeight[..i] == vWeight;
  }

  method Scale(vWeight: seq<nat>) returns (maxR: nat, divisor: nat)
    requires vWeight != []
    ensures maxR == Ratio(vWeight) && divisor == Divisor(vWeight)
  {
    var maxWeight, minWeight := Extremes(vWeight);
    if minWeight > 0 {
      maxR := maxWeight / minWeight;
      if maxR < MIN_WEIGHT_LIMIT { maxR := MIN_WEIGHT_LIMIT; }
      if maxR > MAX_WEIGHT_LIMIT { maxR := MAX_WEIGHT_LIMIT; }
      divisor := maxWeight;
    } else {
      maxR := 1;
      divisor := 1;
    }
  }

  method ScaleAll(vWeight: seq<nat>) returns (w: seq<nat>)
    requires vWeight != []
    ensures w == Scaled(vWeight)
  {
    var maxR, divisor := Scale(vWeight);
    w := [];
    for i := 0 to |vWeight|
      invariant w == ScaledPrefix(vWeight, maxR, divisor, i)
    {
      w := w + [ScaledWeight(vWeight[i], maxR, divisor)];
    }
  }

  /** Enter every positive node into the multimap with its weight as key; route to every other node once. */
  method Seed(vIndex: seq<nat>, w: seq<nat>) returns (total: nat, mm: Multimap, cache: seq<nat>)
    requires |vIndex| == |w| && KeysFit(w)
    ensures total == Total(w) && HoldsCredits(mm, w, [])
    ensures cache == Remap(vIndex, ZeroNodes(w, |w|))
  {
    mm, total, cache := [], 0, [];
    for i := 0 to |w|
      invariant total == SumTo(w, i)
      invariant cache == Remap(vIndex, ZeroNodes(w, i))
      invariant HoldsWeights(mm, w, i)
    {
      WeightFits(w, i);
      mm := Enter(mm, w, i);
      if w[i] > 0 { total := total + w[i]; } else { cache := cache + [vIndex[i]]; }
    }
    WeightsAreFirstCredits(mm, w);
  }

  ghost predicate HoldsWeights(mm: Multimap, w: seq<nat>, n: nat)
    requires n <= |w|
  {
    && Ascending(mm) && DistinctIds(mm)
    && (forall e :: e in mm ==> e.id < n && w[e.id] > 0 && e.key == w[e.id])
    && (forall j: nat :: j < n && w[j] > 0 ==> j in Ids(mm))
  }

  /** Every weight fits an int when the keys do. */
  lemma WeightFits(w: seq<nat>, i: nat)
    requires i < |w| && KeysFit(w)
    ensures w[i] < 0x8000_0000
  {
    SumNonNegative(w, |w|);
    TotalFits(w);
  }

  method Enter(mm: Multimap, w: seq<nat>, n: nat) returns (r: Multimap)
    requires n < |w| && w[n] < 0x8000_0000 && HoldsWeights(mm, w, n)
    ensures HoldsWeights(r, w, n + 1)
  {
    if w[n] > 0 {
      assert n !in Ids(mm);
      r := Insert(mm, Entry(w[n], n));
    } else {
      r := mm;
    }
  }

  lemma WeightsAreFirstCredits(mm: Multimap, w: seq<nat>)
    requires HoldsWeights(mm, w, |w|)
    ensures HoldsCredits(mm, w, [])
  {
    forall j: nat | j < |w| ensures Credit(w, [], j) == w[j] { }
  }

  /** The common body of dispatchEndpointCache and updateHashProxyWeighted, for nodes named by vIndex. */
  method Spread(vIndex: seq<nat>, vWeight: seq<nat>) returns (cache: seq<nat>, ghost picks: seq<nat>)
    requires |vIndex| == |vWeight| && vWeight != [] && KeysFit(Scaled(vWeight))
    ensures var w := Scaled(vWeight);
      && Smooth(w, picks) && |picks| == Total(w)
      && (forall i :: 0 <= i < |picks| ==> picks[i] < |vIndex|)
      && cache == Remap(vIndex, ZeroNodes(w, |w|) + picks)
    ensures |cache| == |ZeroNodes(Scaled(vWeight), |vWeight|)| + Total(Scaled(vWeight))
  {
    var w := ScaleAll(vWeight);
    cache, picks := Fill(vIndex, w);
  }

  method Fill(vIndex: seq<nat>, w: seq<nat>) returns (cache: seq<nat>, ghost picks: seq<nat>)
    requires |vIndex| == |w| && KeysFit(w)
    ensures Smooth(w, picks) && |picks| == Total(w)
    ensures forall i :: 0 <= i < |picks| ==> picks[i] < |vIndex|
    ensures cache == Remap(vIndex, ZeroNodes(w, |w|) + picks)
    ensures |cache| == |ZeroNodes(w, |w|)| + Total(w)
  {
    var total, mm;
    total, mm, cache := Seed(vIndex, w);
    picks := [];
    for r := 0 to total
      invariant |picks| == r && Smooth(w, picks) && HoldsCredits(mm, w, picks)
      invariant forall j :: 0 <= j < |picks| ==> picks[j] < |vIndex|
      invariant cache == Remap(vIndex, ZeroNodes(w, |w|) + picks)
    {
      if mm == [] { NoPositiveNode(mm, w, picks); assert false; }
      var p, next := Round(mm, w, total, picks);
      RemapOfPush(vIndex, ZeroNodes(w, |w|), picks, p);
      cache := cache + [vIndex[p]];
      picks := picks + [p];
      mm := next;
    }
  }

  lemma RemapOfPush(vIndex: seq<nat>, z: seq<nat>, picks: seq<nat>, p: nat)
    requires p < |vIndex| && forall j :: 0 <= j < |z| ==> z[j] < |vIndex|
    requires forall j :: 0 <= j < |picks| ==> picks[j] < |vIndex|
    ensures Remap(vIndex, z + (picks + [p])) == Remap(vIndex, z + picks) + [vIndex[p]]
  {
    assert z + (picks + [p]) == z + picks + [p];
  }

  lemma NoPositiveNode(mm: Multimap, w: seq<nat>, picks: seq<nat>)
    requires HoldsCredits(mm, w, picks) && mm == []
    ensures Total(w) <= 0
  {
    assert forall i :: 0 <= i < |w| ==> w[i] == 0;
    SumAtMostZero(w, |w|);
  }
}
