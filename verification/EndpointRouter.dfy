/**
 EndpointManager's weighted selection over time: endpoint updates, timed rebuilds of the router cache, and the
 rotating walk over it. Proxies are values; whether a proxy passes checkActive is an input of each call.
 */
module EndpointRouter {
  import opened Collections
  import opened KeyBound
  import opened SmoothSchedule
  import opened WeightedRouter

  /** 2^20 - 1: up to here no running key can overflow the source's int, whatever the weights. */
  const MAX_NODES: nat := 1_048_575

  datatype Proxy = Proxy(name: string, weight: int)

  /** The proxies that answer yes on each step of a walk; a proxy met twice may answer differently. */
  type Answers = seq<set<Proxy>>

  function Yes(answers: Answers, step: nat): set<Proxy> {
    if step < |answers| then answers[step] else {}
  }

  datatype Selection<P> =
    | NoEndpoint
    | Passed(proxy: P)              // a proxy that passed checkActive
    | Retried(proxy: P, reset: bool) // none passed: one is retried, its retry time reset if no connection is usable

  // ---- filtering the positive weights

  function PositiveIndexes(p: seq<Proxy>, n: nat): (r: seq<nat>)
    requires n <= |p|
    ensures |r| <= n
    ensures forall i :: 0 <= i < |r| ==> r[i] < n && p[r[i]].weight > 0
    ensures forall i, j :: 0 <= i < j < |r| ==> r[i] < r[j]
  {
    if n == 0 then []
    else if p[n - 1].weight > 0 then PositiveIndexes(p, n - 1) + [n - 1]
    else PositiveIndexes(p, n - 1)
  }

  function PositivePrefix(p: seq<Proxy>, n: nat): (r: seq<Proxy>)
    requires n <= |p|
    ensures |r| <= n && forall i :: 0 <= i < |r| ==> r[i].weight > 0
  {
    if n == 0 then []
    else if p[n - 1].weight > 0 then PositivePrefix(p, n - 1) + [p[n - 1]]
    else PositivePrefix(p, n - 1)
  }

  function PositiveProxies(p: seq<Proxy>): (r: seq<Proxy>)
    ensures |r| <= |p| && forall i :: 0 <= i < |r| ==> r[i].weight > 0
  {
    PositivePrefix(p, |p|)
  }

  function Weights(p: seq<Proxy>): (w: seq<nat>)
    requires forall i :: 0 <= i < |p| ==> p[i].weight > 0
    ensures |w| == |p| && forall i :: 0 <= i < |p| ==> w[i] == p[i].weight
  {
    seq(|p|, i requires 0 <= i < |p| => p[i].weight)
  }

  lemma {:induction false} SumAtMost(w: seq<nat>, bound: nat, n: nat)
    requires n <= |w| && forall i :: 0 <= i < n ==> w[i] <= bound
    ensures SumTo(w, n) <= n * bound
  {
    if n > 0 {
      SumAtMost(w, bound, n - 1);
      Distribute(n - 1, 1, bound);
    }
  }

  /** Up to MAX_NODES nodes no running key can leave the range of an int. */
  lemma FewNodesFit(p: seq<Proxy>)
    requires p != [] && |p| <= MAX_NODES && forall i :: 0 <= i < |p| ==> p[i].weight > 0
    ensures KeysFit(Scaled(Weights(p)))
  {
    var v := Weights(p);
    var w := Scaled(v);
    forall i | 0 <= i < |w| ensures w[i] <= MAX_WEIGHT_LIMIT { ScalingKeepsOrder(v, Ratio(v), MaxOf(v), i, i); }
    SumAtMost(w, MAX_WEIGHT_LIMIT, |w|);
    SumNonNegative(w, |w|);
    FewHalvings(|w|);
    ProductBound(Halvings(|w|), Total(w));
  }

  lemma FewHalvings(n: nat)
    requires n <= MAX_NODES
    ensures Halvings(n) <= 20
  {
    assert PowerOfTwo(10) == 1024;
    assert PowerOfTwo(20) == 1_048_576;
    HalvingsBelow(n, 20);
  }

  lemma ProductBound(steps: nat, total: int)
    requires steps <= 20 && 0 <= total <= MAX_NODES * MAX_WEIGHT_LIMIT
    ensures total * steps < 0x8000_0000
  {
    MultiplyLeq(total, steps, 20);
  }

  // ---- rotation

  function Next(pos: nat, n: nat): (r: nat)
    requires n > 0
    ensures r < n
  {
    if pos + 1 >= n then 0 else pos + 1
  }

  /** The slot visited on step k of a walk that starts behind position pos. */
  function RotationAt(pos: nat, k: nat, n: nat): (r: nat)
    requires n > 0
    ensures r < n
  {
    if k == 0 then Next(pos, n) else Next(RotationAt(pos, k - 1, n), n)
  }

  lemma {:induction false} RotationClosedForm(pos: nat, k: nat, n: nat)
    requires pos < n && k < n
    ensures RotationAt(pos, k, n) == if pos + 1 + k < n then pos + 1 + k else pos + 1 + k - n
  {
    if k > 0 { RotationClosedForm(pos, k - 1, n); }
  }

  /** The slots in the order in which a walk from position pos visits them. */
  function Rotated(cache: seq<nat>, pos: nat): (r: seq<nat>)
    requires pos < |cache|
    ensures |r| == |cache|
  {
    cache[pos + 1..] + cache[..pos + 1]
  }

  lemma RotatedAt(cache: seq<nat>, pos: nat, k: nat)
    requires pos < |cache| && k < |cache|
    ensures Rotated(cache, pos)[k] == cache[RotationAt(pos, k, |cache|)]
  {
    RotationClosedForm(pos, k, |cache|);
  }

  /** From any position, as many steps as the cache is long visit every slot once. */
  lemma FullTurnKeepsHits(cache: seq<nat>, pos: nat, i: nat)
    requires pos < |cache|
    ensures Hits(Rotated(cache, pos), i) == Hits(cache, i)
  {
    HitsOfConcat(cache[..pos + 1], cache[pos + 1..], i);
    HitsOfConcat(cache[pos + 1..], cache[..pos + 1], i);
    assert cache == cache[..pos + 1] + cache[pos + 1..];
  }

  /** The usable proxies met on the first n steps of a walk. */
  function Collected(slots: seq<Proxy>, pos: nat, usable: Answers, n: nat): (r: set<Proxy>)
    requires slots != []
    ensures forall p :: p in r ==> p in slots
  {
    if n == 0 then {}
    else
      var p := slots[RotationAt(pos, n - 1, |slots|)];
      Collected(slots, pos, usable, n - 1) + if p in Yes(usable, n - 1) then {p} else {}
  }

  lemma {:induction false} CollectedAt(slots: seq<Proxy>, pos: nat, usable: Answers, n: nat, p: Proxy)
    requires slots != []
    ensures p in Collected(slots, pos, usable, n)
      <==> exists j: nat :: j < n && slots[RotationAt(pos, j, |slots|)] == p && p in Yes(usable, j)
  {
    if n > 0 {
      CollectedAt(slots, pos, usable, n - 1, p);
      if slots[RotationAt(pos, n - 1, |slots|)] == p && p in Yes(usable, n - 1) {
        assert n - 1 < n && slots[RotationAt(pos, n - 1, |slots|)] == p;
      }
    }
  }

  /** On none of the first n steps does the proxy met pass. */
  predicate NonePasses(slots: seq<Proxy>, pos: nat, passing: Answers, n: nat)
    requires slots != []
  {
    n == 0 ||
    (NonePasses(slots, pos, passing, n - 1) && slots[RotationAt(pos, n - 1, |slots|)] !in Yes(passing, n - 1))
  }

  lemma {:induction false} NonePassesAt(slots: seq<Proxy>, pos: nat, passing: Answers, n: nat)
    requires slots != []
    ensures NonePasses(slots, pos, passing, n)
      <==> forall j: nat :: j < n ==> slots[RotationAt(pos, j, |slots|)] !in Yes(passing, j)
  {
    if n > 0 { NonePassesAt(slots, pos, passing, n - 1); }
  }

  /** `p` is the first passing proxy behind position pos, reached on this step. */
  ghost predicate IsFirstPassing(slots: seq<Proxy>, pos: nat, step: nat, at: nat, p: Proxy, passing: Answers) {
    && step < |slots| && at == RotationAt(pos, step, |slots|)
    && p == slots[at] && p in Yes(passing, step) && NonePasses(slots, pos, passing, step)
  }

  /** No proxy passed when it was met; one that was usable then is retried if there is any, else any one after
      resetting its retry time. */
  ghost predicate IsRetry(slots: seq<Proxy>, pos: nat, r: Selection<Proxy>, passing: Answers, usable: Answers)
    requires r.Retried?
  {
    && slots != [] && NonePasses(slots, pos, passing, |slots|) && r.proxy in slots
    && (r.reset <==> Collected(slots, pos, usable, |slots|) == {})
    && (!r.reset ==> r.proxy in Collected(slots, pos, usable, |slots|))
  }

  /** Walk the slots behind pos until one holds a passing proxy; collect the usable ones on the way. */
  method Walk(slots: seq<Proxy>, pos: nat, passing: Answers, usable: Answers)
    returns (found: bool, at: nat, conn: set<Proxy>, ghost step: nat)
    requires pos < |slots|
    ensures at < |slots|
    ensures found ==> IsFirstPassing(slots, pos, step, at, slots[at], passing)
    ensures !found ==> at == pos && NonePasses(slots, pos, passing, |slots|)
    ensures !found ==> conn == Collected(slots, pos, usable, |slots|)
  {
    var n := |slots|;
    found, at, conn, step := false, pos, {}, 0;
    for i := 0 to n
      invariant at == if i == 0 then pos else RotationAt(pos, i - 1, n)
      invariant NonePasses(slots, pos, passing, i) && conn == Collected(slots, pos, usable, i)
    {
      at := at + 1;
      if at >= n { at := 0; }
      assert at == RotationAt(pos, i, n);
      if slots[at] in Yes(passing, i) {
        found, step := true, i;
        return;
      }
      if slots[at] in Yes(usable, i) { conn := conn + {slots[at]}; }
    }
    RotationClosedForm(pos, n - 1, n);
  }

  // ---- the hash router: positive nodes keep their index among all registered nodes

  lemma {:induction false} IndexesOfPositive(p: seq<Proxy>, n: nat)
    requires n <= |p|
    ensures PositivePrefix(p, n) == Remap(p, PositiveIndexes(p, n))
  {
    if n > 0 {
      IndexesOfPositive(p, n - 1);
      var index := PositiveIndexes(p, n - 1);
      if p[n - 1].weight > 0 { assert Remap(p, index + [n - 1]) == Remap(p, index) + [p[n - 1]]; }
    }
  }

  lemma {:induction false} IndexesAreComplete(p: seq<Proxy>, n: nat, k: nat)
    requires k < n <= |p|
    ensures k in PositiveIndexes(p, n) <==> p[k].weight > 0
  {
    if k < n - 1 { IndexesAreComplete(p, n - 1, k); }
  }

  lemma {:induction false} RemapHits(vIndex: seq<nat>, c: seq<nat>, i: nat)
    requires forall k :: 0 <= k < |c| ==> c[k] < |vIndex|
    requires forall j, k :: 0 <= j < k < |vIndex| ==> vIndex[j] < vIndex[k]
    requires i < |vIndex|
    ensures Hits(Remap(vIndex, c), vIndex[i]) == Hits(c, i)
  {
    if c != [] {
      RemapHits(vIndex, c[..|c| - 1], i);
      assert Remap(vIndex, c)[..|c| - 1] == Remap(vIndex, c[..|c| - 1]);
    }
  }

  lemma {:induction false} NoHits(c: seq<nat>, i: nat)
    requires i !in c
    ensures Hits(c, i) == 0
  {
    if c != [] { NoHits(c[..|c| - 1], i); }
  }

  /** The hash cache routes to registered index `index[i]` as often as its scaled weight says, and nowhere else. */
  ghost predicate ExactAt(cache: seq<nat>, index: seq<nat>, w: seq<nat>)
    requires |index| == |w|
  {
    && (forall i: nat :: i < |w| ==> Hits(cache, index[i]) == if w[i] > 0 then w[i] else 1)
    && (forall k: nat :: k !in index ==> Hits(cache, k) == 0)
  }

  ghost predicate HashExact(cache: seq<nat>, reg: seq<Proxy>)
    requires PositiveProxies(reg) != []
  {
    IndexesOfPositive(reg, |reg|);
    ExactAt(cache, PositiveIndexes(reg, |reg|), Scaled(Weights(PositiveProxies(reg))))
  }

  /** Exactly the registered nodes of positive weight are ever hashed to. */
  lemma HashReachesThePositive(cache: seq<nat>, reg: seq<Proxy>, k: nat)
    requires PositiveProxies(reg) != [] && HashExact(cache, reg) && k < |reg|
    ensures Hits(cache, k) > 0 <==> reg[k].weight > 0
  {
    IndexesAreComplete(reg, |reg|, k);
    IndexesOfPositive(reg, |reg|);
    var index := PositiveIndexes(reg, |reg|);
    if k in index {
      var i :| 0 <= i < |index| && index[i] == k;
      assert Hits(cache, index[i]) > 0;
    }
  }

  lemma RemappedIsExact(index: seq<nat>, w: seq<nat>, c: seq<nat>)
    requires |index| == |w| && Exact(c, w)
    requires forall j, k :: 0 <= j < k < |index| ==> index[j] < index[k]
    ensures ExactAt(Remap(index, c), index, w)
  {
    forall i: nat | i < |w| ensures Hits(Remap(index, c), index[i]) == if w[i] > 0 then w[i] else 1 {
      RemapHits(index, c, i);
    }
    forall k: nat | k !in index ensures Hits(Remap(index, c), k) == 0 {
      NoHits(Remap(index, c), k);
    }
  }

  method SelectFrom(slots: seq<Proxy>, pos: nat, passing: Answers, usable: Answers)
    returns (r: Selection<Proxy>, at: nat, ghost step: nat)
    requires slots != []
    ensures at < |slots| && !r.NoEndpoint?
    ensures r.Passed? ==> IsFirstPassing(slots, pos, step, at, r.proxy, passing)
    ensures r.Retried? ==> IsRetry(slots, pos, r, passing, usable) && at == if pos < |slots| then pos else |slots| - 1
  {
    var start := if pos < |slots| then pos else |slots| - 1;
    var found, conn;
    found, at, conn, step := Walk(slots, start, passing, usable);
    StaleStart(pos, |slots|);
    StaleWalk(slots, pos, passing, usable, if found then step else |slots|);
    if found { return Passed(slots[at]), at, step; }
    if conn != {} {
      var p := AnyOf(conn);
      r := Retried(p, false);
    } else {
      assert slots[0] in slots;
      var p :| p in slots;
      r := Retried(p, true);
    }
  }

  /** A position left over from a longer list behaves like the last position. */
  lemma StaleStart(pos: nat, n: nat)
    requires n > 0
    ensures forall k: nat :: RotationAt(if pos < n then pos else n - 1, k, n) == RotationAt(pos, k, n)
  {
    forall k: nat ensures RotationAt(if pos < n then pos else n - 1, k, n) == RotationAt(pos, k, n) {
      StaleStartAt(pos, k, n);
    }
  }

  lemma {:induction false} StaleStartAt(pos: nat, k: nat, n: nat)
    requires n > 0
    ensures RotationAt(if pos < n then pos else n - 1, k, n) == RotationAt(pos, k, n)
  {
    if k > 0 { StaleStartAt(pos, k - 1, n); }
  }

  lemma {:induction false} StaleWalk(slots: seq<Proxy>, pos: nat, passing: Answers, usable: Answers, n: nat)
    requires slots != []
    ensures var start := if pos < |slots| then pos else |slots| - 1;
      && NonePasses(slots, start, passing, n) == NonePasses(slots, pos, passing, n)
      && Collected(slots, start, usable, n) == Collected(slots, pos, usable, n)
  {
    if n > 0 {
      StaleStartAt(pos, n - 1, |slots|);
      StaleWalk(slots, pos, passing, usable, n - 1);
    }
  }

  method FilterPositive(p: seq<Proxy>) returns (r: seq<Proxy>)
    ensures r == PositiveProxies(p)
  {
    r := [];
    for i := 0 to |p|
      invariant r == PositivePrefix(p, i)
    {
      if p[i].weight > 0 { r := r + [p[i]]; }
    }
  }

  /** A cache built from these proxies. */
  ghost predicate BuiltFrom(cache: seq<nat>, proxies: seq<Proxy>) {
    && (forall i :: 0 <= i < |proxies| ==> proxies[i].weight > 0)
    && (proxies == [] ==> cache == [])
    && (proxies != [] ==> cache != [] && Exact(cache, Scaled(Weights(proxies))))
  }

  /** Every proxy passes whenever it is asked. */
  ghost predicate AllPass(slots: seq<Proxy>, passing: Answers) {
    forall i: nat, j: nat :: i < |slots| && j < |slots| ==> slots[i] in Yes(passing, j)
  }

  class EndpointManager {
    var activeProxys: seq<Proxy>
    var vRegProxys: seq<Proxy>
    var activeWeightProxy: seq<Proxy>
    var staticRouterCache: seq<nat>
    var hashStaticRouterCache: seq<nat>
    var lastHashStaticProxys: seq<Proxy>
    var lastSWeightPosition: nat
    var lastRoundPosition: nat
    var update: bool
    var first: bool
    var lastBuildWeightTime: int
    const updateWeightInterval: int := 60

    /** Whatever updates came in since the last build, the cache belongs to the proxies it was built from. */
    ghost predicate Valid()
      reads this
    {
      && BuiltFrom(staticRouterCache, activeWeightProxy)
      && (staticRouterCache != [] ==> lastSWeightPosition < |staticRouterCache|)
    }

    /** `first` and the build time are not initialised by the source: any values. */
    constructor (anyFirst: bool, anyTime: int)
      ensures Valid() && activeProxys == [] && activeWeightProxy == []
      ensures first == anyFirst && lastBuildWeightTime == anyTime && update
    {
      activeProxys, vRegProxys, activeWeightProxy := [], [], [];
      staticRouterCache, hashStaticRouterCache, lastHashStaticProxys := [], [], [];
      lastSWeightPosition, lastRoundPosition, update := 0, 0, true;
      first, lastBuildWeightTime := anyFirst, anyTime;
    }

    /** An endpoint update replaces the proxies and leaves every cache as it was. */
    method UpdateEndpoints(active: seq<Proxy>, reg: seq<Proxy>)
      requires Valid()
      modifies this`activeProxys, this`vRegProxys, this`update
      ensures Valid() && activeProxys == active && vRegProxys == reg && update
    {
      activeProxys, vRegProxys, update := active, reg, true;
    }

    method DispatchEndpointCache(vWeight: seq<nat>) returns (ghost picks: seq<nat>)
      requires vWeight != [] ==> KeysFit(Scaled(vWeight))
      modifies this`staticRouterCache, this`lastSWeightPosition
      ensures vWeight == [] ==>
        staticRouterCache == old(staticRouterCache) && lastSWeightPosition == old(lastSWeightPosition)
      ensures vWeight != [] ==> var w := Scaled(vWeight);
        && Smooth(w, picks) && |picks| == Total(w)
        && staticRouterCache == ZeroNodes(w, |w|) + picks && staticRouterCache != []
        && Exact(staticRouterCache, w) && lastSWeightPosition == 0
    {
      if |vWeight| <= 0 { return []; }
      lastSWeightPosition := 0;
      var ids := seq(|vWeight|, i requires 0 <= i < |vWeight| => i);
      staticRouterCache, picks := Spread(ids, vWeight);
      ghost var w := Scaled(vWeight);
      assert staticRouterCache == ZeroNodes(w, |w|) + picks;
      CacheIsExact(w, picks);
      if staticRouterCache == [] { assert Hits(staticRouterCache, 0) == 0; }
    }

    method UpdateStaticWeighted()
      requires forall i :: 0 <= i < |activeWeightProxy| ==> activeWeightProxy[i].weight > 0
      requires 0 < |activeWeightProxy| <= MAX_NODES
      modifies this`staticRouterCache, this`lastSWeightPosition
      ensures Valid() && lastSWeightPosition == 0
    {
      var vWeight := Weights(activeWeightProxy);
      FewNodesFit(activeWeightProxy);
      ghost var picks := DispatchEndpointCache(vWeight);
    }

    method UpdateProxyWeighted()
      requires Valid() && |activeProxys| <= MAX_NODES
      modifies this`activeWeightProxy, this`staticRouterCache, this`lastSWeightPosition, this`update
      ensures Valid()
      ensures PositiveProxies(activeProxys) == [] ==> unchanged(this)
      ensures PositiveProxies(activeProxys) != [] ==> !update
      ensures PositiveProxies(activeProxys) != [] && old(update) ==>
        activeWeightProxy == PositiveProxies(activeProxys) && lastSWeightPosition == 0
      ensures !old(update) ==>
        && activeWeightProxy == old(activeWeightProxy) && staticRouterCache == old(staticRouterCache)
        && lastSWeightPosition == old(lastSWeightPosition)
    {
      if |activeProxys| <= 0 { return; }
      var vProxy := FilterPositive(activeProxys);
      if |vProxy| <= 0 { return; }
      if update {
        activeWeightProxy := vProxy;
        UpdateStaticWeighted();
      }
      update := false;
    }

    /** Rebuild the hash router from the registered proxies, of which only those of positive weight take part. */
    method UpdateHashProxyWeighted()
      requires |vRegProxys| <= MAX_NODES
      modifies this`hashStaticRouterCache, this`lastHashStaticProxys
      ensures vRegProxys == [] ==>
        && hashStaticRouterCache == old(hashStaticRouterCache)
        && lastHashStaticProxys == old(lastHashStaticProxys)
      ensures vRegProxys != [] ==> lastHashStaticProxys == vRegProxys
      ensures vRegProxys != [] && PositiveProxies(vRegProxys) == [] ==> hashStaticRouterCache == []
      ensures PositiveProxies(vRegProxys) != [] ==> HashExact(hashStaticRouterCache, vRegProxys)
    {
      if |vRegProxys| <= 0 { return; }
      lastHashStaticProxys := vRegProxys;
      hashStaticRouterCache := [];
      IndexesOfPositive(vRegProxys, |vRegProxys|);
      var live := FilterPositive(vRegProxys);
      if |live| <= 0 { return; }
      var vIndex := PositiveIndexes(vRegProxys, |vRegProxys|);
      FewNodesFit(live);
      ghost var picks;
      hashStaticRouterCache, picks := Spread(vIndex, Weights(live));
      ghost var w := Scaled(Weights(live));
      CacheIsExact(w, picks);
      RemappedIsExact(vIndex, w, ZeroNodes(w, |w|) + picks);
    }

    function Slots(): (r: seq<Proxy>)
      requires Valid()
      reads this
      ensures |r| == |staticRouterCache|
      ensures forall k :: 0 <= k < |r| ==> r[k] == activeWeightProxy[staticRouterCache[k]]
    {
      Remap(activeWeightProxy, staticRouterCache)
    }

    /** Plain round robin over the active proxies. */
    method GetNextValidProxy(passing: Answers, usable: Answers) returns (r: Selection<Proxy>, ghost step: nat)
      modifies this`lastRoundPosition
      ensures r == NoEndpoint <==> activeProxys == []
      ensures r == NoEndpoint ==> lastRoundPosition == old(lastRoundPosition)
      ensures r.Passed? ==>
        IsFirstPassing(activeProxys, old(lastRoundPosition), step, lastRoundPosition, r.proxy, passing)
      ensures r.Retried? ==> IsRetry(activeProxys, old(lastRoundPosition), r, passing, usable)
      ensures r.Retried? && old(lastRoundPosition) < |activeProxys| ==> lastRoundPosition == old(lastRoundPosition)
    {
      step := 0;
      if |activeProxys| == 0 { return NoEndpoint, step; }
      r, lastRoundPosition, step := SelectFrom(activeProxys, lastRoundPosition, passing, usable);
    }

    /** Weighted selection: rebuild when due, then walk the cache; with no cache, plain round robin. */
    method GetWeightedForNormal(now: int, passing: Answers, usable: Answers)
      returns (r: Selection<Proxy>, ghost step: nat, ghost start: nat)
      requires Valid() && |activeProxys| <= MAX_NODES
      modifies this`activeWeightProxy, this`staticRouterCache, this`lastSWeightPosition, this`update
      modifies this`first, this`lastBuildWeightTime, this`lastRoundPosition
      ensures Valid()
      ensures r == NoEndpoint <==> activeProxys == []
      ensures r == NoEndpoint ==> unchanged(this)
      // the timed rebuild
      ensures now < old(lastBuildWeightTime) || activeProxys == [] ==>
        lastBuildWeightTime == old(lastBuildWeightTime) && first == old(first)
      ensures old(lastBuildWeightTime) <= now && activeProxys != [] ==>
        !first && lastBuildWeightTime == now + updateWeightInterval + if old(first) then 5 else 0
      ensures now < old(lastBuildWeightTime) || !old(update) || PositiveProxies(activeProxys) == [] ==>
        activeWeightProxy == old(activeWeightProxy) && staticRouterCache == old(staticRouterCache)
      ensures old(lastBuildWeightTime) <= now && old(update) && PositiveProxies(activeProxys) != [] ==>
        activeWeightProxy == PositiveProxies(activeProxys) && start == 0
      ensures now < old(lastBuildWeightTime) || !old(update) ==> start == old(lastSWeightPosition)
      // the selection
      ensures r.Passed? && activeWeightProxy != [] ==>
        IsFirstPassing(Slots(), start, step, lastSWeightPosition, r.proxy, passing)
      ensures r.Retried? && activeWeightProxy != [] ==>
        IsRetry(Slots(), start, r, passing, usable) && lastSWeightPosition == start
      ensures r.Passed? && activeWeightProxy == [] ==>
        IsFirstPassing(activeProxys, old(lastRoundPosition), step, lastRoundPosition, r.proxy, passing)
      ensures r.Retried? && activeWeightProxy == [] ==>
        IsRetry(activeProxys, old(lastRoundPosition), r, passing, usable)
    {
      step, start := 0, lastSWeightPosition;
      if |activeProxys| == 0 { return NoEndpoint, step, start; }
      if lastBuildWeightTime <= now { Rebuild(now); }
      start := lastSWeightPosition;
      if |activeWeightProxy| > 0 {
        r, step := SelectFromCache(passing, usable);
      } else {
        r, step := GetNextValidProxy(passing, usable);
      }
    }

    method Rebuild(now: int)
      requires Valid() && |activeProxys| <= MAX_NODES
      modifies this`activeWeightProxy, this`staticRouterCache, this`lastSWeightPosition, this`update
      modifies this`first, this`lastBuildWeightTime
      ensures Valid()
      ensures !first && lastBuildWeightTime == now + updateWeightInterval + if old(first) then 5 else 0
      ensures !old(update) || PositiveProxies(activeProxys) == [] ==>
        activeWeightProxy == old(activeWeightProxy) && staticRouterCache == old(staticRouterCache)
      ensures old(update) && PositiveProxies(activeProxys) != [] ==>
        activeWeightProxy == PositiveProxies(activeProxys) && lastSWeightPosition == 0
      ensures !old(update) ==> lastSWeightPosition == old(lastSWeightPosition)
    {
      UpdateProxyWeighted();
      if !first {
        lastBuildWeightTime := now + updateWeightInterval;
      } else {
        first := false;
        lastBuildWeightTime := now + updateWeightInterval + 5;
      }
    }

    method SelectFromCache(passing: Answers, usable: Answers) returns (r: Selection<Proxy>, ghost step: nat)
      requires Valid() && activeWeightProxy != []
      modifies this`lastSWeightPosition
      ensures Valid() && !r.NoEndpoint?
      ensures r.Passed? ==>
        IsFirstPassing(Slots(), old(lastSWeightPosition), step, lastSWeightPosition, r.proxy, passing)
      ensures r.Retried? ==>
        && IsRetry(Slots(), old(lastSWeightPosition), r, passing, usable)
        && lastSWeightPosition == old(lastSWeightPosition)
    {
      r, lastSWeightPosition, step := SelectFrom(Slots(), lastSWeightPosition, passing, usable);
    }

    /** Every cached slot names a proxy of the build, and every proxy of the build is in some slot. */
    lemma SlotsCoverProxies()
      requires Valid()
      ensures forall p :: p in Slots() <==> p in activeWeightProxy
    {
      forall p | p in activeWeightProxy ensures p in Slots() {
        var i :| 0 <= i < |activeWeightProxy| && activeWeightProxy[i] == p;
        var k := HitAtSomeIndex(staticRouterCache, i);
        assert Slots()[k] == p;
      }
    }

    /** As many calls in a row as the cache is long, all proxies passing and no rebuild due: from any position the
        calls return node i exactly as often as its scaled weight says, a node scaled to zero once, and the position
        comes back to where it was. `visited` names the node each call returned. */
    method FullTurn(now: int, passing: Answers, usable: Answers, ghost slots: seq<Proxy>)
      returns (chosen: seq<Selection<Proxy>>, ghost visited: seq<nat>)
      requires CanPass(now, passing, slots)
      modifies this`activeWeightProxy, this`staticRouterCache, this`lastSWeightPosition, this`update
      modifies this`first, this`lastBuildWeightTime, this`lastRoundPosition
      ensures CanPass(now, passing, slots)
      ensures activeWeightProxy == old(activeWeightProxy) && lastSWeightPosition == old(lastSWeightPosition)
      ensures |chosen| == |visited| == |slots|
      ensures Exact(visited, Scaled(Weights(activeWeightProxy)))
      ensures forall k :: 0 <= k < |chosen| ==> chosen[k] == Passed(activeWeightProxy[visited[k]])
    {
      chosen := PassingCalls(|staticRouterCache|, now, passing, usable, slots);
      visited := Rotated(staticRouterCache, old(lastSWeightPosition));
      TurnVisits(old(lastSWeightPosition), slots, chosen);
    }

    lemma TurnVisits(pos: nat, slots: seq<Proxy>, chosen: seq<Selection<Proxy>>)
      requires Valid() && slots == Slots() && pos < |slots| == |chosen|
      requires forall k :: 0 <= k < |chosen| ==> chosen[k] == Passed(slots[RotationAt(pos, k, |slots|)])
      ensures RotationAt(pos, |slots| - 1, |slots|) == pos
      ensures Exact(Rotated(staticRouterCache, pos), Scaled(Weights(activeWeightProxy)))
      ensures forall k :: 0 <= k < |chosen| ==>
        chosen[k] == Passed(activeWeightProxy[Rotated(staticRouterCache, pos)[k]])
    {
      TurnIsExact(staticRouterCache, pos, Scaled(Weights(activeWeightProxy)), activeWeightProxy, slots, chosen);
    }

    method PassingCalls(count: nat, now: int, passing: Answers, usable: Answers, ghost slots: seq<Proxy>)
      returns (chosen: seq<Selection<Proxy>>)
      requires CanPass(now, passing, slots)
      modifies this`activeWeightProxy, this`staticRouterCache, this`lastSWeightPosition, this`update
      modifies this`first, this`lastBuildWeightTime, this`lastRoundPosition
      ensures CanPass(now, passing, slots) && |chosen| == count
      ensures activeWeightProxy == old(activeWeightProxy) && staticRouterCache == old(staticRouterCache)
      ensures lastSWeightPosition
        == if count == 0 then old(lastSWeightPosition) else RotationAt(old(lastSWeightPosition), count - 1, |slots|)
      ensures forall k :: 0 <= k < count ==>
        chosen[k] == Passed(slots[RotationAt(old(lastSWeightPosition), k, |slots|)])
    {
      if count == 0 { return []; }
      chosen := PassingCalls(count - 1, now, passing, usable, slots);
      var r := PassingCall(now, passing, usable, slots);
      chosen := chosen + [r];
    }

    /** No rebuild is due and every cached proxy passes. */
    ghost predicate CanPass(now: int, passing: Answers, slots: seq<Proxy>)
      reads this
    {
      && Valid() && 0 < |activeProxys| <= MAX_NODES && slots == Slots() && slots != []
      && now < lastBuildWeightTime && AllPass(slots, passing)
    }

    method PassingCall(now: int, passing: Answers, usable: Answers, ghost slots: seq<Proxy>)
      returns (r: Selection<Proxy>)
      requires CanPass(now, passing, slots)
      modifies this`activeWeightProxy, this`staticRouterCache, this`lastSWeightPosition, this`update
      modifies this`first, this`lastBuildWeightTime, this`lastRoundPosition
      ensures CanPass(now, passing, slots)
      ensures activeWeightProxy == old(activeWeightProxy) && staticRouterCache == old(staticRouterCache)
      ensures lastSWeightPosition == Next(old(lastSWeightPosition), |slots|)
      ensures r == Passed(slots[lastSWeightPosition])
    {
      ghost var step, start;
      r, step, start := GetWeightedForNormal(now, passing, usable);
      OnlyPassing(slots, start, step, lastSWeightPosition, r, passing, usable);
    }
  }

  lemma OnlyPassing(slots: seq<Proxy>, start: nat, step: nat, at: nat, r: Selection<Proxy>,
                    passing: Answers, usable: Answers)
    requires slots != [] && !r.NoEndpoint? && AllPass(slots, passing)
    requires r.Passed? ==> IsFirstPassing(slots, start, step, at, r.proxy, passing)
    requires r.Retried? ==> IsRetry(slots, start, r, passing, usable)
    ensures at == RotationAt(start, 0, |slots|) && r == Passed(slots[at])
  {
    assert slots[RotationAt(start, 0, |slots|)] in Yes(passing, 0);
  }

  lemma TurnIsExact(cache: seq<nat>, pos: nat, w: seq<nat>, proxies: seq<Proxy>, slots: seq<Proxy>,
                    chosen: seq<Selection<Proxy>>)
    requires pos < |cache| && Exact(cache, w) && |proxies| == |w| && |slots| == |chosen| == |cache|
    requires forall k :: 0 <= k < |slots| ==> slots[k] == proxies[cache[k]]
    requires forall k :: 0 <= k < |chosen| ==> chosen[k] == Passed(slots[RotationAt(pos, k, |cache|)])
    ensures RotationAt(pos, |cache| - 1, |cache|) == pos
    ensures Exact(Rotated(cache, pos), w)
    ensures forall k :: 0 <= k < |chosen| ==> chosen[k] == Passed(proxies[Rotated(cache, pos)[k]])
  {
    RotationClosedForm(pos, |cache| - 1, |cache|);
    forall k | 0 <= k < |chosen| ensures chosen[k] == Passed(proxies[Rotated(cache, pos)[k]]) {
      RotatedAt(cache, pos, k);
    }
    forall i: nat | i < |w| ensures Hits(Rotated(cache, pos), i) == Hits(cache, i) { FullTurnKeepsHits(cache, pos, i); }
  }
}
