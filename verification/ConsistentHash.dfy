/**
 EndpointManager's consistent-hash selection. Four structures are coupled: the index of active hosts, its sorted
 copy from which hosts are struck while they fail, the snapshot a ring was last built from, and the ring. The plain
 and the weighted selection own a snapshot and a ring each and share the index and the copy.
 */
module ConsistentHash {
  import opened Collections
  import opened HashRing
  import opened EndpointRouter
  import opened ModuloHash

  datatype Node = Node(desc: string, host: string)

  datatype Endpoint = Endpoint(node: Node, weight: int)

  datatype Chosen =
    | NoProxy
    | FromRing(node: Node)
    | FromFallback(selection: Selection<Node>)
    | PastRing // the ring's search ran past its last point

  // ---- endpoint lists

  function Kept(eps: seq<Endpoint>, all: bool): (r: seq<Endpoint>)
  {
    if eps == [] then []
    else
      var rest := Kept(eps[..|eps| - 1], all);
      var e := eps[|eps| - 1];
      if all || e.weight > 0 then rest + [e] else rest
  }

  /** All are kept, or those of positive weight, in their order. */
  lemma {:induction false} KeptOfConcat(a: seq<Endpoint>, b: seq<Endpoint>, all: bool)
    ensures Kept(a + b, all) == Kept(a, all) + Kept(b, all)
    ensures |b| == 1 ==> Kept(b, all) == if all || b[0].weight > 0 then b else []
  {
    if b == [] {
      assert a + b == a;
    } else {
      var n := |b| - 1;
      KeptOfConcat(a, b[..n], all);
      assert (a + b)[..|a + b| - 1] == a + b[..n];
      if n == 0 { assert b[..n] == [] && b == [b[0]]; }
    }
  }

  function Nodes(eps: seq<Endpoint>): (r: seq<Node>)
    ensures |r| == |eps| && forall i :: 0 <= i < |r| ==> r[i] == eps[i].node
  {
    seq(|eps|, i requires 0 <= i < |eps| => eps[i].node)
  }

  /** The weights once these endpoints were entered: of several with one node the last decides. */
  function Weighed(weight: map<Node, int>, eps: seq<Endpoint>): (r: map<Node, int>)
    ensures r.Keys == weight.Keys + NodeSet(Nodes(eps))
  {
    if eps == [] then weight
    else
      var e := eps[|eps| - 1];
      assert eps == eps[..|eps| - 1] + [e];
      assert Nodes(eps) == Nodes(eps[..|eps| - 1]) + [e.node];
      Weighed(weight, eps[..|eps| - 1])[e.node := e.weight]
  }

  lemma OneMoreWeighed(weight: map<Node, int>, eps: seq<Endpoint>, i: nat, all: bool)
    requires i < |eps|
    ensures var so := Weighed(weight, Kept(eps[..i], all));
      Weighed(weight, Kept(eps[..i + 1], all))
        == if all || eps[i].weight > 0 then so[eps[i].node := eps[i].weight] else so
  {
    assert eps[..i + 1][..i] == eps[..i];
    var kept := Kept(eps[..i], all);
    assert (kept + [eps[i]])[..|kept|] == kept;
  }

  /** Every node whose weight is another than before is flagged, and no flag is lost. */
  ghost predicate Flagged(before: map<Node, int>, after: map<Node, int>, was: set<Node>, changed: set<Node>) {
    && before.Keys <= after.Keys && was <= changed
    && forall n :: n in before && after[n] != before[n] ==> n in changed
  }

  lemma FlaggedOn(a: map<Node, int>, b: map<Node, int>, c: map<Node, int>, x: set<Node>, y: set<Node>, z: set<Node>)
    requires Flagged(a, b, x, y) && Flagged(b, c, y, z)
    ensures Flagged(a, c, x, z)
  {
  }

  function NodeSet(nodes: seq<Node>): (r: set<Node>)
    ensures forall n :: n in r <==> n in nodes
  {
    set n | n in nodes
  }

  /** Each host with the first endpoint that has it. */
  function ByHost(nodes: seq<Node>): (m: map<string, Node>)
    ensures forall h :: h in m ==> m[h] in nodes && m[h].host == h
    ensures forall n :: n in nodes ==> n.host in m
  {
    if nodes == [] then map[]
    else
      var rest, n := ByHost(nodes[..|nodes| - 1]), nodes[|nodes| - 1];
      if n.host in rest then rest else rest[n.host := n]
  }

  lemma OneMoreNode(nodes: seq<Node>, n: Node)
    ensures ByHost(nodes + [n]) == if n.host in ByHost(nodes) then ByHost(nodes) else ByHost(nodes)[n.host := n]
    ensures NodeSet(nodes + [n]) == NodeSet(nodes) + {n}
  {
    assert (nodes + [n])[..|nodes|] == nodes;
  }

  /** The nodes of the endpoints that are kept. */
  function KeptSet(eps: seq<Endpoint>, all: bool): set<Node> {
    NodeSet(Nodes(Kept(eps, all)))
  }

  lemma OneMoreKept(eps: seq<Endpoint>, i: nat, all: bool)
    requires i < |eps|
    ensures KeptSet(eps[..i + 1], all)
      == KeptSet(eps[..i], all) + if all || eps[i].weight > 0 then {eps[i].node} else {}
  {
    OneMoreEndpoint(eps, i, all);
    OneMoreNode(Nodes(Kept(eps[..i], all)), eps[i].node);
  }

  lemma OneMoreEndpoint(eps: seq<Endpoint>, i: nat, all: bool)
    requires i < |eps|
    ensures Nodes(Kept(eps[..i + 1], all))
      == Nodes(Kept(eps[..i], all)) + if all || eps[i].weight > 0 then [eps[i].node] else []
  {
    assert eps[..i + 1][..i] == eps[..i];
  }

  lemma {:induction false} ByHostKeepsFirst(nodes: seq<Node>, i: nat)
    requires i < |nodes| && forall j :: 0 <= j < i ==> nodes[j].host != nodes[i].host
    ensures ByHost(nodes)[nodes[i].host] == nodes[i]
  {
    if i < |nodes| - 1 {
      ByHostKeepsFirst(nodes[..|nodes| - 1], i);
    } else {
      assert forall n :: n in nodes[..i] ==> n.host != nodes[i].host;
    }
  }

  /** The snapshot a ring was last built from, and the ring. */
  class Table {
    var last: map<string, Node>
    var list: seq<Point>

    constructor ()
      ensures last == map[] && list == []
    {
      last, list := map[], [];
    }
  }

  ghost predicate IsVirtual(word: (string, nat, nat) -> nat, p: Point) {
    exists j: nat, i: nat :: i < 4 && word(p.host, j, i) == p.code
  }

  function RingWeight(bStatic: bool, weight: int): (r: nat)
    ensures r == 0 <==> bStatic && weight <= 0
  {
    var iWeight := if bStatic then weight else 100;
    if iWeight > 0 then (if iWeight / 4 <= 0 then 1 else iWeight / 4) else 0
  }

  /** The hosts a ring is built from. */
  ghost function Eligible(m: map<string, Node>, bStatic: bool, weight: map<Node, int>): (r: set<string>)
    requires forall h :: h in m ==> m[h] in weight
    ensures r <= m.Keys && (!bStatic ==> r == m.Keys)
  {
    set h | h in m && (bStatic ==> weight[m[h]] > 0)
  }

  /** A host of this weight has virtual name j: 25 names on a plain ring; on a weighted one a quarter of the weight,
      rounded down, but one at least, and none without a positive weight. */
  predicate HasName(bStatic: bool, weight: int, j: nat) {
    if bStatic then weight > 0 && (j == 0 || 4 * (j + 1) <= weight) else j < 25
  }

  /** This point belongs on a ring built from m: one of the four digest words of a virtual name. */
  ghost predicate OnRing(word: (string, nat, nat) -> nat, m: map<string, Node>, bStatic: bool, weight: map<Node, int>,
                         p: Point) {
    && p.host in m && m[p.host] in weight
    && exists j: nat, i: nat ::
         i < 4 && word(p.host, j, i) == p.code && HasName(bStatic, weight[m[p.host]], j)
  }

  ghost predicate IsPlainPoint(word: (string, nat, nat) -> nat, p: Point) {
    exists j: nat, i: nat :: i < 4 && j < 25 && word(p.host, j, i) == p.code
  }

  /** The plain ring of these hosts, whatever their weights. */
  ghost predicate PlainRing(list: seq<Point>, word: (string, nat, nat) -> nat, hosts: set<string>) {
    forall p :: p in list <==> p.host in hosts && IsPlainPoint(word, p)
  }

  lemma PlainIsRing(list: seq<Point>, word: (string, nat, nat) -> nat, m: map<string, Node>, weight: map<Node, int>)
    requires forall h :: h in m ==> m[h] in weight
    ensures IsRing(list, word, m, false, weight) <==> PlainRing(list, word, m.Keys)
  {
    forall p ensures OnRing(word, m, false, weight, p) <==> p.host in m.Keys && IsPlainPoint(word, p) {
      if p.host in m && IsPlainPoint(word, p) {
        var j: nat, i: nat :| i < 4 && j < 25 && word(p.host, j, i) == p.code;
        assert HasName(false, weight[m[p.host]], j);
      }
    }
  }

  lemma NamesOf(bStatic: bool, weight: int, j: nat)
    ensures j < RingWeight(bStatic, weight) <==> HasName(bStatic, weight, j)
  {
  }

  /** The points added for a host are those that belong on the ring for it. */
  lemma AddedAreOnRing(word: (string, nat, nat) -> nat, m: map<string, Node>, bStatic: bool, weight: map<Node, int>,
                       h: string, p: Point)
    requires h in m && m[h] in weight
    ensures p in HostPoints(word, h, RingWeight(bStatic, weight[m[h]]))
      <==> p.host == h && OnRing(word, m, bStatic, weight, p)
  {
    var w := RingWeight(bStatic, weight[m[h]]);
    if p in HostPoints(word, h, w) {
      var j, i := PointOf(word, h, w, p);
      NamesOf(bStatic, weight[m[h]], j);
      assert word(p.host, j, i) == p.code;
    }
    if p.host == h && OnRing(word, m, bStatic, weight, p) {
      var j: nat, i: nat :| i < 4 && word(p.host, j, i) == p.code && HasName(bStatic, weight[m[p.host]], j);
      NamesOf(bStatic, weight[m[h]], j);
      HasPoint(word, h, w, j, i);
    }
  }

  /** So many points a host of this weight owns: 100 on a plain ring; on a weighted one its weight rounded down to a
      multiple of four, but four at least, and none without a positive weight. */
  predicate HasShare(bStatic: bool, weight: int, points: nat) {
    if !bStatic then points == 100
    else if weight <= 0 then points == 0
    else if weight < 4 then points == 4
    else points % 4 == 0 && points <= weight < points + 4
  }

  /** Every host of m has its share of the points. */
  predicate Shared(list: seq<Point>, m: map<string, Node>, bStatic: bool, weight: map<Node, int>)
    requires forall h :: h in m ==> m[h] in weight
  {
    forall h :: h in m ==> HasShare(bStatic, weight[m[h]], PointsOf(list, h))
  }

  ghost predicate IsRing(list: seq<Point>, word: (string, nat, nat) -> nat, m: map<string, Node>, bStatic: bool,
                         weight: map<Node, int>)
  {
    forall p :: p in list <==> OnRing(word, m, bStatic, weight, p)
  }

  /** Striking a host from the sorted hosts takes its points off the ring and no others, so a code answered by another
      host keeps its point, unless it has become the code of the first point. */
  lemma StrikingSparesOthers(list': seq<Point>, list: seq<Point>, word: (string, nat, nat) -> nat, m: map<string, Node>,
                             bStatic: bool, weight: map<Node, int>, h: string, code: nat, k: nat, k': nat)
    requires Sorted(list) && Sorted(list')
    requires IsRing(list, word, m, bStatic, weight) && IsRing(list', word, m - {h}, bStatic, weight)
    requires Settles(list, code, k) && list[k].host != h && Settles(list', code, k')
    ensures IsWithout(list', list, h)
    ensures list'[k'].code == list[k].code <==> !(list[0].code < code && code == list'[0].code)
  {
    forall p ensures p in list' <==> p in list && p.host != h {
      assert OnRing(word, m - {h}, bStatic, weight, p) <==> OnRing(word, m, bStatic, weight, p) && p.host != h;
    }
    OthersKeepTheirCodes(list', list, h, code, k, k');
  }

  /** The hosts not in `todo` are done: the list has exactly their points, and their shares. */
  ghost predicate RingSoFar(list: seq<Point>, word: (string, nat, nat) -> nat, m: map<string, Node>, bStatic: bool,
                            weight: map<Node, int>, todo: set<string>)
  {
    forall p :: p in list <==> OnRing(word, m, bStatic, weight, p) && p.host !in todo
  }

  predicate SharesSoFar(list: seq<Point>, m: map<string, Node>, bStatic: bool, weight: map<Node, int>,
                        todo: set<string>)
    requires forall h :: h in m ==> m[h] in weight
  {
    forall h :: h in m ==>
      if h in todo then PointsOf(list, h) == 0 else HasShare(bStatic, weight[m[h]], PointsOf(list, h))
  }

  lemma OneMoreOnRing(word: (string, nat, nat) -> nat, m: map<string, Node>, bStatic: bool, weight: map<Node, int>,
                      todo: set<string>, list: seq<Point>, h: string)
    requires h in m && m[h] in weight && h in todo && RingSoFar(list, word, m, bStatic, weight, todo)
    ensures var added := HostPoints(word, h, RingWeight(bStatic, weight[m[h]]));
      RingSoFar(list + added, word, m, bStatic, weight, todo - {h})
  {
    var added := HostPoints(word, h, RingWeight(bStatic, weight[m[h]]));
    forall p ensures p in list + added <==> OnRing(word, m, bStatic, weight, p) && p.host !in todo - {h} {
      AddedAreOnRing(word, m, bStatic, weight, h, p);
    }
  }

  lemma OneMoreShare(word: (string, nat, nat) -> nat, m: map<string, Node>, bStatic: bool, weight: map<Node, int>,
                     todo: set<string>, list: seq<Point>, h: string)
    requires forall k :: k in m ==> m[k] in weight
    requires h in m && h in todo && SharesSoFar(list, m, bStatic, weight, todo)
    ensures var added := HostPoints(word, h, RingWeight(bStatic, weight[m[h]]));
      SharesSoFar(list + added, m, bStatic, weight, todo - {h}) && (!bStatic ==> |added| == 100)
  {
    var added := HostPoints(word, h, RingWeight(bStatic, weight[m[h]]));
    forall k | k in m ensures PointsOf(list + added, k) == PointsOf(list, k) + if k == h then |added| else 0 {
      PointsOfConcat(list, added, k);
      PointsOfOneHost(added, h, k);
    }
  }

  /** What a ring's points say about its hosts. */
  lemma RingHosts(list: seq<Point>, word: (string, nat, nat) -> nat, m: map<string, Node>, bStatic: bool,
                  weight: map<Node, int>)
    requires IsRing(list, word, m, bStatic, weight) && forall h :: h in m ==> m[h] in weight
    ensures forall p :: p in list ==> IsVirtual(word, p)
    ensures Hosts(list) == Eligible(m, bStatic, weight)
  {
    forall p | p in list ensures IsVirtual(word, p) && p.host in Eligible(m, bStatic, weight) {
      assert OnRing(word, m, bStatic, weight, p);
    }
    forall h | h in Eligible(m, bStatic, weight) ensures h in Hosts(list) {
      var p := Point(word(h, 0, 0), h);
      assert HasName(bStatic, weight[m[h]], 0) && word(p.host, 0, 0) == p.code;
      assert OnRing(word, m, bStatic, weight, p);
    }
  }

  method AddNodes(word: (string, nat, nat) -> nat, m: map<string, Node>, bStatic: bool, weight: map<Node, int>)
    returns (list: seq<Point>)
    requires forall h :: h in m ==> m[h] in weight
    ensures forall p :: p in list ==> IsVirtual(word, p)
    ensures Hosts(list) == Eligible(m, bStatic, weight) && IsRing(list, word, m, bStatic, weight)
    ensures Shared(list, m, bStatic, weight) && (!bStatic ==> |list| == 100 * |m|)
  {
    list := [];
    var todo := m.Keys;
    while todo != {}
      invariant todo <= m.Keys
      invariant RingSoFar(list, word, m, bStatic, weight, todo) && SharesSoFar(list, m, bStatic, weight, todo)
      invariant !bStatic ==> |list| + 100 * |todo| == 100 * |m|
      decreases |todo|
    {
      var h := AnyOf(todo);
      var w := RingWeight(bStatic, weight[m[h]]);
      OneMoreOnRing(word, m, bStatic, weight, todo, list, h);
      OneMoreShare(word, m, bStatic, weight, todo, list, h);
      list := list + HostPoints(word, h, w);
      todo := todo - {h};
    }
    RingHosts(list, word, m, bStatic, weight);
  }

  lemma EmptyRing(word: (string, nat, nat) -> nat, m: map<string, Node>, bStatic: bool, weight: map<Node, int>)
    requires |m| == 0
    ensures m == map[] && Hosts([]) == Eligible(m, bStatic, weight) && IsRing([], word, m, bStatic, weight)
  {
  }

  lemma SameShares(a: seq<Point>, b: seq<Point>, m: map<string, Node>, bStatic: bool, weight: map<Node, int>)
    requires multiset(a) == multiset(b) && forall h :: h in m ==> m[h] in weight
    requires Shared(a, m, bStatic, weight)
    ensures Shared(b, m, bStatic, weight) && |a| == |b|
  {
    forall h | h in m ensures HasShare(bStatic, weight[m[h]], PointsOf(b, h)) { PointsOfSame(a, b, h); }
    assert |multiset(a)| == |a| && |multiset(b)| == |b|;
  }

  method BuildRing(word: (string, nat, nat) -> nat, m: map<string, Node>, bStatic: bool, weight: map<Node, int>)
    returns (ring: seq<Point>)
    requires forall h :: h in m ==> m[h] in weight
    ensures Sorted(ring) && forall p :: p in ring ==> IsVirtual(word, p)
    ensures Hosts(ring) == Eligible(m, bStatic, weight) && IsRing(ring, word, m, bStatic, weight)
    ensures Shared(ring, m, bStatic, weight) && (!bStatic ==> |ring| == 100 * |m|)
  {
    var list := AddNodes(word, m, bStatic, weight);
    ring := SortPoints(list);
    SameShares(list, ring, m, bStatic, weight);
    HostsOfSame(ring, list);
    SamePoints(ring, list);
  }

  /** Indexed hosts lead to active proxies of known weight, and sorted hosts are indexed hosts. */
  ghost predicate Indexed(index: map<string, Node>, sort: map<string, Node>, active: seq<Node>,
                          weight: map<Node, int>) {
    && (forall h :: h in index ==> index[h].host == h && index[h] in active && index[h] in weight)
    && (forall h :: h in sort ==> h in index && sort[h] == index[h])
  }

  lemma NewIndex(active: seq<Node>, weight: map<Node, int>)
    requires NodeSet(active) <= weight.Keys
    ensures Indexed(ByHost(active), ByHost(active), active, weight)
  {
  }

  lemma AllBack(index: map<string, Node>, sort: map<string, Node>)
    requires forall h :: h in sort ==> h in index && sort[h] == index[h]
    ensures sort + index == index
    ensures |index| == |sort| ==> sort == index
  {
    if |index| == |sort| { SameSize(sort.Keys, index.Keys); }
  }

  lemma SameSize(a: set<string>, b: set<string>)
    requires a <= b && |a| == |b|
    ensures a == b
  {
    if x :| x in b && x !in a {
      Smaller(a, b - {x});
    }
  }

  lemma Smaller(a: set<string>, b: set<string>)
    requires a <= b
    ensures |a| <= |b|
  {
    assert b == a + (b - a);
  }

  lemma SameKeys(a: map<string, Node>, b: map<string, Node>)
    requires |a| == |b| && forall h :: h in a ==> h in b
    ensures a.Keys == b.Keys
  {
    SameSize(a.Keys, b.Keys);
  }

  lemma SamePoints(a: seq<Point>, b: seq<Point>)
    requires multiset(a) == multiset(b)
    ensures forall p :: p in a <==> p in b
  {
    forall p ensures p in a <==> p in b { assert p in multiset(a) <==> p in multiset(b); }
  }

  /** The code is that of a virtual name of one of these hosts. */
  ghost predicate IsCodeOf(word: (string, nat, nat) -> nat, hosts: set<string>, code: nat) {
    exists h: string, j: nat, i: nat :: h in hosts && i < 4 && word(h, j, i) == code
  }

  lemma TopIsCode(word: (string, nat, nat) -> nat, list: seq<Point>, code: nat, hosts: set<string>)
    requires IsTop(list, code) && Hosts(list) <= hosts
    requires forall p :: p in list ==> IsVirtual(word, p)
    ensures IsCodeOf(word, hosts, code)
  {
    var p := list[|list| - 1];
    assert p.host in Hosts(list);
    assert IsVirtual(word, p);
    var j: nat, i: nat :| i < 4 && word(p.host, j, i) == p.code;
    assert p.host in hosts && i < 4 && word(p.host, j, i) == code;
  }

  /** The lookup of the code in this list answers with this host. */
  ghost predicate Owner(list: seq<Point>, code: nat, h: string) {
    exists k: nat :: Settles(list, code, k) && list[k].host == h
  }

  /** So does the lookup in the ring built from m. */
  ghost predicate RingAnswers(word: (string, nat, nat) -> nat, m: map<string, Node>, bStatic: bool,
                              weight: map<Node, int>, code: nat, h: string)
  {
    exists list :: Sorted(list) && IsRing(list, word, m, bStatic, weight) && Owner(list, code, h)
  }

  function Elements(tried: seq<string>): set<string> {
    set h | h in tried
  }

  /** Each host tried is the one that the ring without those tried before it answers with; of the first that is only
      said if the ring was up to date. */
  ghost predicate InTurn(word: (string, nat, nat) -> nat, before: map<string, Node>, bStatic: bool,
                         weight: map<Node, int>, code: nat, tried: seq<string>, exact: bool)
  {
    tried == [] ||
    var earlier := tried[..|tried| - 1];
    && InTurn(word, before, bStatic, weight, code, earlier, exact)
    && (exact || earlier != [] ==>
          RingAnswers(word, before - Elements(earlier), bStatic, weight, code, tried[|tried| - 1]))
  }

  lemma OneMoreTried(word: (string, nat, nat) -> nat, before: map<string, Node>, bStatic: bool,
                     weight: map<Node, int>, code: nat, tried: seq<string>, exact: bool, h: string)
    requires InTurn(word, before, bStatic, weight, code, tried, exact)
    requires exact || tried != [] ==> RingAnswers(word, before - Elements(tried), bStatic, weight, code, h)
    ensures InTurn(word, before, bStatic, weight, code, tried + [h], exact)
  {
    assert (tried + [h])[..|tried|] == tried;
  }

  lemma {:induction false} OnlyAfterTheFirst(word: (string, nat, nat) -> nat, before: map<string, Node>, bStatic: bool,
                                             weight: map<Node, int>, code: nat, tried: seq<string>, exact: bool)
    requires InTurn(word, before, bStatic, weight, code, tried, exact)
    ensures InTurn(word, before, bStatic, weight, code, tried, false)
  {
    if tried != [] {
      OnlyAfterTheFirst(word, before, bStatic, weight, code, tried[..|tried| - 1], exact);
    }
  }

  /** Spelled out for one of them. */
  lemma {:induction false} TriedInTurn(word: (string, nat, nat) -> nat, before: map<string, Node>, bStatic: bool,
                                       weight: map<Node, int>, code: nat, tried: seq<string>, exact: bool, i: nat)
    requires InTurn(word, before, bStatic, weight, code, tried, exact) && i < |tried| && (exact || i > 0)
    ensures RingAnswers(word, before - Elements(tried[..i]), bStatic, weight, code, tried[i])
  {
    if i < |tried| - 1 {
      TriedInTurn(word, before, bStatic, weight, code, tried[..|tried| - 1], exact, i);
      assert tried[..|tried| - 1][..i] == tried[..i];
    }
  }

  lemma SortedLeft(before: map<string, Node>, index: map<string, Node>, sort: map<string, Node>, tried: seq<string>,
                   activeInReg: set<Node>, passing: set<Node>)
    requires Progress(before, index, sort, tried, activeInReg, passing)
    requires forall h :: h in sort ==> h in index && sort[h] == index[h]
    ensures before - Elements(tried) == sort
  {
  }

  /** Ring hosts are within the snapshot; a plain ring, when there is one, is that of the snapshot's hosts. */
  ghost predicate RingOfSnapshot(list: seq<Point>, last: set<string>, bStatic: bool,
                                 word: (string, nat, nat) -> nat)
  {
    && Sorted(list) && Hosts(list) <= last
    && (forall p :: p in list ==> IsVirtual(word, p))
    && (!bStatic && list != [] ==> Hosts(list) == last && PlainRing(list, word, last))
  }

  lemma NewRing(list: seq<Point>, last: set<string>, word: (string, nat, nat) -> nat, m: map<string, Node>,
                bStatic: bool, weight: map<Node, int>)
    requires Sorted(list) && IsRing(list, word, m, bStatic, weight) && forall h :: h in m ==> m[h] in weight
    requires m != map[] ==> last == m.Keys
    ensures RingOfSnapshot(list, last, bStatic, word) && (m == map[] ==> list == [])
    ensures !bStatic ==> PlainRing(list, word, m.Keys)
  {
    RingHosts(list, word, m, bStatic, weight);
    if list != [] { assert list[0].host in Hosts(list); }
    if !bStatic { PlainIsRing(list, word, m, weight); }
  }

  /** What a selection has done to the index so far: struck hosts are those tried, each of them failed, and only those
      the registry calls inactive left the index. */
  ghost predicate Progress(before: map<string, Node>, index: map<string, Node>, sort: map<string, Node>,
                           tried: seq<string>, activeInReg: set<Node>, passing: set<Node>)
  {
    && (forall i, j :: 0 <= i < j < |tried| ==> tried[i] != tried[j])
    && (forall h :: h in tried ==> h in before && h !in sort && before[h] !in activeInReg * passing)
    && (forall h :: h in before ==> h in sort || h in tried)
    && (forall h :: h in sort ==> h in before)
    && (forall h :: h in index <==> h in before && (h in tried ==> before[h] in activeInReg))
    && (forall h :: h in index ==> index[h] == before[h])
  }

  /** Ring hosts are sorted; the snapshot has the sorted hosts, except that the last host struck stays in it. */
  ghost predicate RingMatches(list: seq<Point>, last: set<string>, sort: set<string>, tried: seq<string>) {
    && Hosts(list) <= sort
    && (sort != {} ==> last == sort)
    && (sort == {} && tried != [] ==> last == {tried[|tried| - 1]})
  }

  /** A snapshot that looks up to date belongs to a ring that has every indexed host. */
  ghost predicate Current(list: seq<Point>, last: set<string>, index: set<string>) {
    last == index ==> Hosts(list) == index
  }

  /** The ring is empty, yet its snapshot has exactly the indexed hosts, so nothing will make it be rebuilt. */
  predicate Stranded(list: seq<Point>, last: set<string>, index: set<string>) {
    list == [] && last == index && index != {}
  }

  lemma CurrentUnlessStranded(list: seq<Point>, last: set<string>, index: set<string>)
    requires list != [] ==> Hosts(list) == last
    ensures Current(list, last, index) <==> !Stranded(list, last, index)
  {
  }

  /** A search leaves its ring current unless it emptied it and the last host struck is the only one still indexed. */
  lemma CurrentAfterwards(list: seq<Point>, last: set<string>, before: map<string, Node>, index: map<string, Node>,
                          sort: map<string, Node>, tried: seq<string>, activeInReg: set<Node>, passing: set<Node>)
    requires Progress(before, index, sort, tried, activeInReg, passing)
    requires RingMatches(list, last, sort.Keys, tried) && Hosts(list) == sort.Keys
    ensures list == [] ==> forall h :: h in before ==> h in tried
    ensures Current(list, last, index.Keys) <==> !(list == [] && tried != [] && index.Keys == {tried[|tried| - 1]})
  {
    if list != [] { assert list[0].host in Hosts(list); }
    if tried == [] && list == [] { assert forall h :: h in index ==> h in sort.Keys; }
  }

  lemma StillMatches(last: set<string>, sort: set<string>, tried: seq<string>, h: string,
                     list': seq<Point>, last': set<string>, sort': set<string>)
    requires (sort != {} ==> last == sort) && h in sort && sort' == sort - {h}
    requires Hosts(list') <= sort' && last' == if sort' == {} then last else sort'
    ensures RingMatches(list', last', sort', tried + [h])
  {
  }

  lemma Struck(before: map<string, Node>, index: map<string, Node>, sort: map<string, Node>, tried: seq<string>,
               activeInReg: set<Node>, passing: set<Node>, h: string)
    requires Progress(before, index, sort, tried, activeInReg, passing)
    requires h in sort && before[h] !in activeInReg * passing
    ensures var index' := if before[h] in activeInReg then index else index - {h};
      Progress(before, index', sort - {h}, tried + [h], activeInReg, passing)
  {
  }

  lemma FirstTried(before: map<string, Node>, index: map<string, Node>, sort: map<string, Node>, tried: seq<string>,
                   activeInReg: set<Node>, passing: set<Node>)
    requires Progress(before, index, sort, tried, activeInReg, passing)
    ensures tried != [] ==> tried[0] in before
  {
    if tried != [] { assert tried[0] in tried; }
  }

  class EndpointManager {
    const word: (string, nat, nat) -> nat
    const direct: bool
    const staticWeight: bool
    const normal: Table
    const weighted: Table
    var index: map<string, Node>
    var sort: map<string, Node>
    var activeProxys: seq<Node>
    var vRegProxys: seq<Node>
    var activeInReg: set<Node>
    var weight: map<Node, int>
    var changed: set<Node>

    ghost predicate Hashed(t: Table, bStatic: bool)
      reads t
    {
      RingOfSnapshot(t.list, t.last.Keys, bStatic, word)
    }

    ghost predicate TablesValid()
      reads normal, weighted
    {
      normal != weighted && Hashed(normal, false) && Hashed(weighted, true)
    }

    ghost predicate RingCurrent()
      reads this, normal
    {
      Current(normal.list, normal.last.Keys, index.Keys)
    }

    ghost predicate Valid()
      reads this, normal, weighted
    {
      TablesValid() && Indexed(index, sort, activeProxys, weight)
    }

    constructor (digest: (string, nat, nat) -> nat, isDirect: bool, isStatic: bool)
      ensures Valid() && fresh(normal) && fresh(weighted)
      ensures word == digest && direct == isDirect && staticWeight == isStatic
      ensures index == sort == map[] && activeProxys == vRegProxys == [] && activeInReg == {} && weight == map[]
      ensures normal.list == weighted.list == [] && normal.last == weighted.last == map[] && RingCurrent()
    {
      word, direct, staticWeight := digest, isDirect, isStatic;
      normal := new Table();
      weighted := new Table();
      index, sort, activeProxys, vRegProxys := map[], map[], [], [];
      activeInReg, weight, changed := {}, map[], {};
    }

    /** A proxy flags every change of its weight; a new proxy's flag is not initialised by the source. */
    method SetWeight(n: Node, w: int)
      modifies this`weight, this`changed
      ensures weight == old(weight)[n := w]
      ensures n in old(weight) ==> changed == if old(weight)[n] != w then old(changed) + {n} else old(changed)
      ensures changed - {n} == old(changed) - {n} && old(changed) <= changed
    {
      if n !in weight || weight[n] != w { changed := changed + {n}; }
      weight := weight[n := w];
    }

    method AddActive(e: Endpoint)
      modifies this`activeInReg, this`activeProxys, this`index, this`sort, this`weight, this`changed
      ensures activeInReg == old(activeInReg) + {e.node} && activeProxys == old(activeProxys) + [e.node]
      ensures index == if e.node.host in old(index) then old(index) else old(index)[e.node.host := e.node]
      ensures sort == if e.node.host in old(sort) then old(sort) else old(sort)[e.node.host := e.node]
      ensures weight == old(weight)[e.node := e.weight] && Flagged(old(weight), weight, old(changed), changed)
    {
      activeInReg := activeInReg + {e.node};
      activeProxys := activeProxys + [e.node];
      if e.node.host !in index { index := index[e.node.host := e.node]; }
      if e.node.host !in sort { sort := sort[e.node.host := e.node]; }
      SetWeight(e.node, e.weight);
    }

    method AddInactive(e: Endpoint)
      modifies this`activeInReg, this`weight, this`changed
      ensures activeInReg == old(activeInReg) - {e.node}
      ensures weight == old(weight)[e.node := e.weight] && Flagged(old(weight), weight, old(changed), changed)
    {
      activeInReg := activeInReg - {e.node};
      SetWeight(e.node, e.weight);
    }

    method AddAllActive(active: seq<Endpoint>, all: bool)
      requires activeProxys == [] && index == sort == map[]
      modifies this`activeInReg, this`activeProxys, this`index, this`sort, this`weight, this`changed
      ensures activeProxys == Nodes(Kept(active, all)) && index == sort == ByHost(activeProxys)
      ensures activeInReg == old(activeInReg) + NodeSet(activeProxys)
      ensures weight == Weighed(old(weight), Kept(active, all)) && Flagged(old(weight), weight, old(changed), changed)
      ensures NodeSet(activeProxys) <= weight.Keys
    {
      for i := 0 to |active|
        invariant activeProxys == Nodes(Kept(active[..i], all)) && index == sort == ByHost(activeProxys)
        invariant activeInReg == old(activeInReg) + NodeSet(activeProxys)
        invariant weight == Weighed(old(weight), Kept(active[..i], all))
        invariant Flagged(old(weight), weight, old(changed), changed)
      {
        OneMoreEndpoint(active, i, all);
        OneMoreWeighed(old(weight), active, i, all);
        if !all && active[i].weight <= 0 { continue; }
        OneMoreNode(activeProxys, active[i].node);
        ghost var mid, flags := weight, changed;
        AddActive(active[i]);
        FlaggedOn(old(weight), mid, weight, old(changed), flags, changed);
      }
      assert active[..|active|] == active;
    }

    method AddAllInactive(inactive: seq<Endpoint>, all: bool)
      modifies this`activeInReg, this`weight, this`changed
      ensures activeInReg == old(activeInReg) - KeptSet(inactive, all)
      ensures weight == Weighed(old(weight), Kept(inactive, all))
      ensures Flagged(old(weight), weight, old(changed), changed)
    {
      for i := 0 to |inactive|
        invariant activeInReg == old(activeInReg) - KeptSet(inactive[..i], all)
        invariant weight == Weighed(old(weight), Kept(inactive[..i], all))
        invariant Flagged(old(weight), weight, old(changed), changed)
      {
        OneMoreKept(inactive, i, all);
        OneMoreWeighed(old(weight), inactive, i, all);
        if !all && inactive[i].weight <= 0 { continue; }
        ghost var mid, flags := weight, changed;
        AddInactive(inactive[i]);
        FlaggedOn(old(weight), mid, weight, old(changed), flags, changed);
      }
      assert inactive[..|inactive|] == inactive;
    }

    /** A registry update rebuilds the index and its copy and leaves the snapshots and rings as they were. An endpoint
        listed both as active and as inactive ends up inactive, but stays indexed. */
    method UpdateEndpoints(active: seq<Endpoint>, inactive: seq<Endpoint>)
      requires Valid()
      modifies this`activeProxys, this`vRegProxys, this`index, this`sort, this`activeInReg, this`weight, this`changed
      ensures Valid()
      ensures activeProxys == Nodes(Kept(active, direct || !staticWeight))
      ensures index == sort == ByHost(activeProxys)
      ensures var gone := KeptSet(inactive, direct || !staticWeight);
        && activeInReg == (if active == [] then old(activeInReg) else {}) + NodeSet(activeProxys) - gone
        && NodeSet(vRegProxys) == NodeSet(activeProxys) + gone
      ensures var all := direct || !staticWeight;
        weight == Weighed(Weighed(old(weight), Kept(active, all)), Kept(inactive, all))
      ensures Flagged(old(weight), weight, old(changed), changed)
      ensures RingCurrent() <==> !Stranded(normal.list, normal.last.Keys, index.Keys)
    {
      TakeEndpoints(active, inactive);
      CurrentUnless();
    }

    method TakeEndpoints(active: seq<Endpoint>, inactive: seq<Endpoint>)
      modifies this`activeProxys, this`vRegProxys, this`index, this`sort, this`activeInReg, this`weight, this`changed
      ensures Indexed(index, sort, activeProxys, weight)
      ensures activeProxys == Nodes(Kept(active, direct || !staticWeight))
      ensures index == sort == ByHost(activeProxys)
      ensures var gone := KeptSet(inactive, direct || !staticWeight);
        && activeInReg == (if active == [] then old(activeInReg) else {}) + NodeSet(activeProxys) - gone
        && NodeSet(vRegProxys) == NodeSet(activeProxys) + gone
      ensures var all := direct || !staticWeight;
        weight == Weighed(Weighed(old(weight), Kept(active, all)), Kept(inactive, all))
      ensures Flagged(old(weight), weight, old(changed), changed)
    {
      var all := direct || !staticWeight;
      activeProxys, index, sort := [], map[], map[];
      if |active| > 0 { activeInReg := {}; }
      AddAllActive(active, all);
      AddAllInactive(inactive, all);
      NewIndex(activeProxys, weight);
      vRegProxys := Arrange(NodeSet(activeProxys) + KeptSet(inactive, all));
    }

    /** Put every struck host back, then tell whether the hosts (or, if weighted, a weight) changed since the last
        build of the ring. */
    method CheckConHashChange(bStatic: bool, last: map<string, Node>) returns (r: bool)
      requires Indexed(index, sort, activeProxys, weight)
      modifies this`sort, this`changed
      ensures sort == index
      ensures r <==> last.Keys != index.Keys || (bStatic && index.Values * old(changed) != {})
      ensures !r ==> changed == old(changed)
      ensures changed <= old(changed) && old(changed) - changed <= index.Values
    {
      AllBack(index, sort);
      if |index| != |sort| { sort := sort + index; }
      assert sort == index;
      if |last| != |sort| { return true; }
      var todo := sort.Keys;
      while todo != {}
        invariant todo <= sort.Keys && sort == index && |last| == |sort| && changed == old(changed)
        invariant forall h :: h in sort && h !in todo ==> h in last && (bStatic ==> sort[h] !in changed)
        decreases |todo|
      {
        var h := AnyOf(todo);
        if h !in last { return true; }
        if bStatic && sort[h] in changed {
          assert sort[h] in index.Values * changed;
          changed := changed - {sort[h]};
          return true;
        }
        todo := todo - {h};
      }
      SameKeys(sort, last);
      r := false;
      if bStatic {
        forall n | n in index.Values ensures n !in changed { var h :| h in index && index[h] == n; assert h in sort; }
      }
    }

    /** Rebuild the ring from the sorted hosts. With no sorted host the ring is emptied but its snapshot stays. */
    method UpdateConHash(bStatic: bool, t: Table)
      requires Indexed(index, sort, activeProxys, weight)
      modifies this`changed, t
      ensures Hashed(t, bStatic) && (sort == map[] ==> t.list == [])
      ensures Hosts(t.list) == Eligible(sort, bStatic, weight)
      ensures IsRing(t.list, word, sort, bStatic, weight) && Shared(t.list, sort, bStatic, weight)
      ensures !bStatic ==> |t.list| == 100 * |sort|
      ensures t.last == if sort == map[] then old(t.last) else sort
      ensures changed == old(changed) - sort.Values
    {
      t.list := [];
      if |sort| == 0 {
        EmptyRing(word, sort, bStatic, weight);
        NewRing(t.list, t.last.Keys, word, sort, bStatic, weight);
        return;
      }
      t.last := sort;
      changed := changed - sort.Values;
      t.list := BuildRing(word, sort, bStatic, weight);
      NewRing(t.list, t.last.Keys, word, sort, bStatic, weight);
    }

    /** Check for changes and rebuild the ring if there are any. Afterwards every indexed host is sorted, and ring hosts
        are within them. */
    method Refresh(bStatic: bool, t: Table) returns (ghost exact: bool)
      requires Indexed(index, sort, activeProxys, weight) && Hashed(t, bStatic)
      modifies this`sort, this`changed, t
      ensures Indexed(index, sort, activeProxys, weight) && Hashed(t, bStatic) && sort == index
      ensures Hosts(t.list) <= sort.Keys && (sort != map[] ==> t.last.Keys == sort.Keys)
      ensures exact ==> IsRing(t.list, word, sort, bStatic, weight)
      ensures old(t.last.Keys) != index.Keys || (bStatic && index.Values * old(changed) != {}) ==> exact
      ensures !bStatic && (t.list != [] || old(Current(t.list, t.last.Keys, index.Keys))) ==> exact
      ensures old(t.last.Keys) == index.Keys && !bStatic ==> t.list == old(t.list) && t.last == old(t.last)
      ensures index == map[] ==> t.list == [] && t.last == old(t.last)
    {
      var change := CheckConHashChange(bStatic, t.last);
      if change { UpdateConHash(bStatic, t); }
      exact := change || (!bStatic && (t.list != [] || index == map[]));
      if !bStatic { PlainIsRing(t.list, word, sort, weight); }
      if t.list != [] { assert t.list[0].host in Hosts(t.list); }
    }

    /** Strike a failed host and rebuild the ring without it. */
    method Strike(bStatic: bool, t: Table, h: string)
      requires Indexed(index, sort, activeProxys, weight) && h in sort
      modifies this`index, this`sort, this`changed, t
      ensures Indexed(index, sort, activeProxys, weight)
      ensures index == if old(index[h]) in activeInReg then old(index) else old(index) - {h}
      ensures sort == old(sort) - {h}
      ensures Hashed(t, bStatic) && (sort == map[] ==> t.list == [])
      ensures Hosts(t.list) == Eligible(sort, bStatic, weight)
      ensures IsRing(t.list, word, sort, bStatic, weight)
      ensures t.last == if sort == map[] then old(t.last) else sort
    {
      if index[h] !in activeInReg { index := index - {h}; }
      sort := sort - {h};
      UpdateConHash(bStatic, t);
    }

    /** The state between two lookups of one selection; `exact` says whether the ring has every eligible host. */
    ghost predicate Trying(bStatic: bool, t: Table, before: map<string, Node>, tried: seq<string>, passing: set<Node>,
                           exact: bool)
      reads this, t
    {
      && Indexed(index, sort, activeProxys, weight) && Hashed(t, bStatic)
      && Progress(before, index, sort, tried, activeInReg, passing)
      && RingMatches(t.list, t.last.Keys, sort.Keys, tried)
      && (exact ==> IsRing(t.list, word, sort, bStatic, weight))
    }

    /** How a search can end: on the host the ring answers with, which will do; past the end of the ring; or, after the
        last indexed host failed for good, on nothing. */
    ghost predicate Concluded(bStatic: bool, t: Table, r: Chosen, code: nat, before: map<string, Node>,
                              tried: seq<string>, passing: set<Node>, exact: bool)
      reads this, t
    {
      match r
      case NoProxy => tried != [] && index == map[]
      case PastRing => t.list != [] && IsCodeOf(word, before.Keys, code)
      case FromFallback(_) => false
      case FromRing(n) =>
        && n.host in sort && n == sort[n.host] && n in activeInReg * passing
        && t.list != [] && Owner(t.list, code, n.host)
        && (exact ==> RingAnswers(word, sort, bStatic, weight, code, n.host))
    }

    /** One lookup: the host it answers with, chosen if it will do; else `h` is to be struck. The host is always
        indexed, so the source's "not found" branch cannot be taken. */
    method TryOnce(bStatic: bool, t: Table, code: nat, passing: set<Node>,
                   ghost before: map<string, Node>, ghost tried: seq<string>, ghost start: bool)
      returns (r: Chosen, h: string)
      requires Trying(bStatic, t, before, tried, passing, tried != [] || start) && t.list != []
      requires InTurn(word, before, bStatic, weight, code, tried, start)
      ensures !r.NoProxy? ==> Concluded(bStatic, t, r, code, before, tried, passing, tried != [] || start)
      ensures r.NoProxy? ==> h in sort && sort[h] !in activeInReg * passing
      ensures r.NoProxy? ==> InTurn(word, before, bStatic, weight, code, tried + [h], start)
    {
      var found;
      ghost var k;
      found, k := GetNodeName(t.list, code);
      if found.PastTheEnd? {
        TopIsCode(word, t.list, code, before.Keys);
        return PastRing, "";
      }
      h := found.host;
      assert h in Hosts(t.list);
      assert Owner(t.list, code, h);
      if index[h] in activeInReg && index[h] in passing { return FromRing(index[h]), h; }
      SortedLeft(before, index, sort, tried, activeInReg, passing);
      OneMoreTried(word, before, bStatic, weight, code, tried, start, h);
      r := NoProxy;
    }

    method Failed(bStatic: bool, t: Table, h: string, passing: set<Node>,
                  ghost before: map<string, Node>, ghost tried: seq<string>, ghost exact: bool)
      requires Trying(bStatic, t, before, tried, passing, exact)
      requires h in sort && sort[h] !in activeInReg * passing
      modifies this`index, this`sort, this`changed, t
      ensures Trying(bStatic, t, before, tried + [h], passing, true)
      ensures |sort| < |old(sort)|
    {
      Struck(before, index, sort, tried, activeInReg, passing, h);
      Strike(bStatic, t, h);
      StillMatches(old(t.last.Keys), old(sort.Keys), tried, h, t.list, t.last.Keys, sort.Keys);
      assert sort.Keys == old(sort).Keys - {h};
    }

    /** Look the code up in the ring, striking each failed host, until a host will do or the ring is empty. */
    method TryRing(bStatic: bool, t: Table, code: nat, passing: set<Node>, ghost start: bool)
      returns (done: bool, r: Chosen, ghost tried: seq<string>, ghost exact: bool)
      requires Trying(bStatic, t, index, [], passing, start)
      modifies this`index, this`sort, this`changed, t
      ensures Trying(bStatic, t, old(index), tried, passing, exact) && (exact <==> tried != [] || start)
      ensures tried == [] ==> t.list == old(t.list) && t.last == old(t.last)
      ensures InTurn(word, old(index), bStatic, weight, code, tried, start)
      ensures done ==> Concluded(bStatic, t, r, code, old(index), tried, passing, exact)
      ensures !done ==> t.list == [] && r.NoProxy?
    {
      done, r, tried, exact := false, NoProxy, [], start;
      ghost var before, list, last := index, t.list, t.last;
      while !done && |t.list| > 0
        invariant Trying(bStatic, t, before, tried, passing, exact) && (exact <==> tried != [] || start)
        invariant tried == [] ==> t.list == list && t.last == last
        invariant InTurn(word, before, bStatic, weight, code, tried, start)
        invariant done ==> Concluded(bStatic, t, r, code, before, tried, passing, exact)
        invariant !done ==> r.NoProxy?
        decreases !done, |sort|
      {
        done, r, tried := TryNext(bStatic, t, code, passing, before, tried, start);
        exact := tried != [] || start;
      }
    }

    /** One round of the search. */
    method TryNext(bStatic: bool, t: Table, code: nat, passing: set<Node>,
                   ghost before: map<string, Node>, ghost tried: seq<string>, ghost start: bool)
      returns (done: bool, r: Chosen, ghost tried': seq<string>)
      requires Trying(bStatic, t, before, tried, passing, tried != [] || start) && t.list != []
      requires InTurn(word, before, bStatic, weight, code, tried, start)
      modifies this`index, this`sort, this`changed, t
      ensures Trying(bStatic, t, before, tried', passing, tried' != [] || start)
      ensures InTurn(word, before, bStatic, weight, code, tried', start)
      ensures tried' == [] ==> t.list == old(t.list) && t.last == old(t.last) && tried == []
      ensures done ==> Concluded(bStatic, t, r, code, before, tried', passing, tried' != [] || start)
      ensures !done ==> r.NoProxy? && |sort| < |old(sort)|
    {
      var h;
      r, h := TryOnce(bStatic, t, code, passing, before, tried, start);
      if !r.NoProxy? { return true, r, tried; }
      Failed(bStatic, t, h, passing, before, tried, tried != [] || start);
      tried' := tried + [h];
      done := |index| == 0;
    }

    /** Refresh the ring and search it; not done means that the ring is empty and the fallback is next. */
    method SearchRing(bStatic: bool, t: Table, code: nat, passing: set<Node>)
      returns (done: bool, r: Chosen, ghost tried: seq<string>, ghost exact: bool)
      requires Indexed(index, sort, activeProxys, weight) && Hashed(t, bStatic)
      modifies this`index, this`sort, this`changed, t
      ensures Trying(bStatic, t, old(index), tried, passing, exact)
      ensures exact || (bStatic && tried == []) || (!bStatic && tried == [] && t.list == [])
      ensures done ==> Concluded(bStatic, t, r, code, old(index), tried, passing, exact)
      ensures !done ==> t.list == [] && r.NoProxy?
      ensures !bStatic && old(Current(t.list, t.last.Keys, index.Keys)) ==> exact
      ensures !bStatic && !old(Current(t.list, t.last.Keys, index.Keys)) ==>
        !done && tried == [] && t.last == old(t.last) && index == old(index)
      ensures old(index) == map[] ==> t.list == [] && t.last == old(t.last)
      ensures InTurn(word, old(index), bStatic, weight, code, tried, !bStatic)
    {
      ghost var was, last, before := t.list, t.last.Keys, index;
      ghost var start := Refresh(bStatic, t);
      assert Progress(index, index, sort, [], activeInReg, passing);
      if !bStatic && !Current(was, last, index.Keys) { assert was == []; }
      done, r, tried, exact := false, NoProxy, [], start;
      if |t.list| > 0 { done, r, tried, exact := TryRing(bStatic, t, code, passing, start); }
      if bStatic { OnlyAfterTheFirst(word, before, bStatic, weight, code, tried, start); }
    }

    lemma CurrentAfter(t: Table, before: map<string, Node>, tried: seq<string>, passing: set<Node>, exact: bool)
      requires Trying(false, t, before, tried, passing, exact) && exact
      ensures t.list == [] ==> forall h :: h in before ==> h in tried
      ensures Current(t.list, t.last.Keys, index.Keys)
        <==> !(t.list == [] && tried != [] && index.Keys == {tried[|tried| - 1]})
    {
      RingHosts(t.list, word, sort, false, weight);
      CurrentAfterwards(t.list, t.last.Keys, before, index, sort, tried, activeInReg, passing);
    }

    /** The selection once there are registered proxies: the ring, and if that fails the fallback. */
    method Select(bStatic: bool, t: Table, code: nat, passing: set<Node>, usable: set<Node>, random: nat)
      returns (r: Chosen, ghost tried: seq<string>, ghost n: nat)
      requires Valid() && t == if bStatic then weighted else normal
      modifies this`index, this`sort, this`changed, t
      ensures Valid()
      ensures Progress(old(index), index, sort, tried, activeInReg, passing)
      ensures r.NoProxy? ==> tried != [] && index == map[]
      ensures r.FromRing? ==> r.node.host in sort && r.node == sort[r.node.host] && r.node in activeInReg * passing
      ensures r.PastRing? ==> IsCodeOf(word, old(index).Keys, code)
      ensures r.FromFallback? ==>
        IsModuloChoice(r.selection, n, vRegProxys, activeProxys, activeInReg, code, passing, usable)
      ensures !bStatic && r.FromFallback? && old(RingCurrent()) ==> forall h :: h in old(index) ==> h in tried
      ensures !bStatic && r.FromFallback? && tried != [] ==>
        normal.list == [] && normal.last.Keys == {tried[|tried| - 1]}
      ensures !bStatic && !old(RingCurrent()) ==>
        r.FromFallback? && tried == [] && index == old(index) != map[] && !RingCurrent()
      ensures !bStatic && old(RingCurrent()) ==>
        (RingCurrent() <==> !(r.FromFallback? && tried != [] && index.Keys == {tried[|tried| - 1]}))
      ensures old(index) == map[] ==> t.list == [] && t.last == old(t.last)
      ensures InTurn(word, old(index), bStatic, weight, code, tried, !bStatic)
      ensures r.FromRing? ==> Owner(t.list, code, r.node.host)
      ensures r.FromRing? && (tried != [] || !bStatic) ==> RingAnswers(word, sort, bStatic, weight, code, r.node.host)
    {
      n := 0;
      var done;
      ghost var exact;
      done, r, tried, exact := SearchRing(bStatic, t, code, passing);
      if !bStatic && exact { CurrentAfter(t, old(index), tried, passing, exact); }
      if done { return; }
      var selection;
      selection, n := GetHashProxyForNormal(vRegProxys, activeProxys, activeInReg, code, passing, usable, random);
      r := FromFallback(selection);
    }

    lemma CurrentUnless()
      requires Valid()
      ensures RingCurrent() <==> !Stranded(normal.list, normal.last.Keys, index.Keys)
    {
      CurrentUnlessStranded(normal.list, normal.last.Keys, index.Keys);
    }

    /** Consistent-hash selection, plain (getConHashProxyForNormal) or weighted (getConHashProxyForWeight). */
    method GetConHashProxy(bStatic: bool, t: Table, code: nat, passing: set<Node>, usable: set<Node>, random: nat)
      returns (r: Chosen, ghost tried: seq<string>, ghost n: nat)
      requires Valid() && t == if bStatic then weighted else normal
      modifies this`index, this`sort, this`changed, t
      ensures Valid()
      ensures vRegProxys == [] ==> r == NoProxy && tried == [] && unchanged(this) && unchanged(t)
      // each host is tried at most once and struck only if it failed
      ensures vRegProxys != [] ==> Progress(old(index), index, sort, tried, activeInReg, passing)
      ensures vRegProxys != [] && r.NoProxy? ==> tried != [] && index == map[]
      ensures r.FromRing? ==> r.node.host in sort && r.node == sort[r.node.host] && r.node in activeInReg * passing
      ensures r.PastRing? ==> IsCodeOf(word, old(index).Keys, code)
      ensures r.FromFallback? ==>
        IsModuloChoice(r.selection, n, vRegProxys, activeProxys, activeInReg, code, passing, usable)
      // each is the one that the ring of the hosts not tried before it answers the code with, and so is the one chosen
      ensures vRegProxys != [] ==> InTurn(word, old(index), bStatic, weight, code, tried, !bStatic)
      ensures r.FromRing? ==> Owner(t.list, code, r.node.host)
      ensures r.FromRing? && (tried != [] || !bStatic) ==> RingAnswers(word, sort, bStatic, weight, code, r.node.host)
      // the plain selection falls back only after trying every indexed host, provided its ring was current
      ensures !bStatic && r.FromFallback? && old(RingCurrent()) ==> forall h :: h in old(index) ==> h in tried
      ensures !bStatic && r.FromFallback? && tried != [] ==>
        normal.list == [] && normal.last.Keys == {tried[|tried| - 1]}
      ensures !bStatic && vRegProxys != [] && !old(RingCurrent()) ==>
        r.FromFallback? && tried == [] && index == old(index) != map[] && !RingCurrent()
      ensures !bStatic && vRegProxys != [] && old(RingCurrent()) ==>
        (RingCurrent() <==> !(r.FromFallback? && tried != [] && index.Keys == {tried[|tried| - 1]}))
      // without indexed hosts the ring is emptied and the snapshot stays
      ensures vRegProxys != [] && old(index) == map[] ==> t.list == [] && t.last == old(t.last)
      // in either mode; a weighted selection may strand the plain ring by taking hosts out of the shared index
      ensures RingCurrent() <==> !Stranded(normal.list, normal.last.Keys, index.Keys)
    {
      r, tried, n := NoProxy, [], 0;
      if |vRegProxys| > 0 { r, tried, n := Select(bStatic, t, code, passing, usable, random); }
      CurrentUnless();
    }

    /** The source means a struck host to be tried again on the next call. The only indexed host is not: once it has
        failed, its snapshot still looks current while its ring is empty, and the next call, with the host healthy
        again, goes to the fallback without a lookup. */
    method OnlyHostIsNotRetried(h: string, code: nat, usable: set<Node>, random: nat)
      returns (first: Chosen, second: Chosen, ghost tried: seq<string>)
      requires Valid() && RingCurrent() && index.Keys == {h} && index[h] in activeInReg && vRegProxys != []
      requires !IsCodeOf(word, index.Keys, code)
      modifies this`index, this`sort, this`changed, normal
      ensures Valid() && index == old(index) && !RingCurrent()
      ensures first.FromFallback? && second.FromFallback? && tried == []
    {
      var n := index[h];
      ghost var m;
      first, tried, m := GetConHashProxy(false, normal, code, {}, usable, random);
      assert h in index && index[h] == n;
      assert h in tried && tried[|tried| - 1] in tried;
      assert index.Keys == {h};
      second, tried, m := GetConHashProxy(false, normal, code, {n}, usable, random);
    }

    /** A second way there, for any number of hosts: all of them fail in one call, and a registry update then leaves
        just the one that was tried last. */
    method AnUpdateStrandsTheRing(code: nat, usable: set<Node>, random: nat)
      returns (first: Chosen, second: Chosen, ghost tried: seq<string>)
      requires Valid() && RingCurrent() && index != map[] && vRegProxys != []
      requires forall h :: h in index ==> index[h] in activeInReg
      requires !IsCodeOf(word, index.Keys, code)
      modifies this, normal
      ensures Valid() && !RingCurrent() && |activeProxys| == 1 && activeProxys[0] in old(index.Values)
      ensures first.FromFallback? && second.FromFallback? && tried == []
    {
      var h;
      first, h := AllFail(code, usable, random);
      OneActive(index[h]);
      ghost var m;
      second, tried, m := GetConHashProxy(false, normal, code, {activeProxys[0]}, usable, random);
    }

    /** A third way: the registry lists no active host, or with static weights none of positive weight, a call comes,
        and the registry lists the hosts of before. The call empties the ring and leaves the snapshot, which then looks
        current, and no host is looked up any more. */
    method ARestoredListStrandsTheRing(none: seq<Endpoint>, inactive: seq<Endpoint>, active: seq<Endpoint>, code: nat,
                                       passing: set<Node>, usable: set<Node>, random: nat)
      returns (first: Chosen, second: Chosen, ghost tried: seq<string>)
      requires Valid() && normal.list != []
      requires Kept(none, direct || !staticWeight) == [] && KeptSet(inactive, direct || !staticWeight) != {}
      requires ByHost(Nodes(Kept(active, direct || !staticWeight))).Keys == normal.last.Keys
      modifies this, normal
      ensures Valid() && !RingCurrent() && index.Keys == old(normal.last.Keys)
      ensures first.FromFallback? && second.FromFallback? && tried == []
    {
      assert normal.list[0].host in Hosts(normal.list);
      first := NoneActive(none, inactive, code, passing, usable, random);
      second, tried := Relisted(active, code, passing, usable, random);
    }

    /** An update leaves no active host, and a call comes. */
    method NoneActive(none: seq<Endpoint>, inactive: seq<Endpoint>, code: nat, passing: set<Node>, usable: set<Node>,
                      random: nat)
      returns (r: Chosen)
      requires Valid()
      requires Kept(none, direct || !staticWeight) == [] && KeptSet(inactive, direct || !staticWeight) != {}
      modifies this, normal
      ensures Valid() && r.FromFallback? && normal.list == [] && normal.last == old(normal.last)
    {
      UpdateEndpoints(none, inactive);
      assert index == map[];
      assert NodeSet(vRegProxys) != {};
      ghost var tried, m;
      r, tried, m := GetConHashProxy(false, normal, code, passing, usable, random);
      FirstTried(map[], index, sort, tried, activeInReg, passing);
    }

    /** With an empty ring, the registry lists the hosts of the snapshot, and a call comes. */
    method Relisted(active: seq<Endpoint>, code: nat, passing: set<Node>, usable: set<Node>, random: nat)
      returns (r: Chosen, ghost tried: seq<string>)
      requires Valid() && normal.list == [] && normal.last != map[]
      requires ByHost(Nodes(Kept(active, direct || !staticWeight))).Keys == normal.last.Keys
      modifies this, normal
      ensures Valid() && !RingCurrent() && index.Keys == old(normal.last.Keys) && r.FromFallback? && tried == []
    {
      UpdateEndpoints(active, []);
      assert NodeSet(vRegProxys) != {} by {
        var h :| h in index;
        assert index[h] in NodeSet(activeProxys);
      }
      ghost var m;
      r, tried, m := GetConHashProxy(false, normal, code, passing, usable, random);
    }

    /** A plain call in which every host fails empties the ring and leaves the last host tried in the snapshot. */
    method AllFail(code: nat, usable: set<Node>, random: nat) returns (r: Chosen, h: string)
      requires Valid() && RingCurrent() && index != map[] && vRegProxys != []
      requires forall h :: h in index ==> index[h] in activeInReg
      requires !IsCodeOf(word, index.Keys, code)
      modifies this`index, this`sort, this`changed, normal
      ensures Valid() && r.FromFallback? && index == old(index)
      ensures h in index && normal.list == [] && normal.last.Keys == {h}
    {
      ghost var tried, m;
      r, tried, m := GetConHashProxy(false, normal, code, {}, usable, random);
      IndexKept(old(index), index, sort, tried, activeInReg, {});
      SomeHost(old(index), tried);
      h := OnlyKey(normal.last);
      assert h in tried;
    }

    /** The registry now lists a single node, of positive weight. */
    method OneActive(n: Node)
      requires Valid()
      modifies this`activeProxys, this`vRegProxys, this`index, this`sort, this`activeInReg, this`weight, this`changed
      ensures Valid() && activeProxys == [n] && index == map[n.host := n] && vRegProxys != []
      ensures RingCurrent() <==> !Stranded(normal.list, normal.last.Keys, {n.host})
    {
      var e := Endpoint(n, 100);
      UpdateEndpoints([e], []);
      assert [e][..0] == [];
      assert Kept([e], direct || !staticWeight) == [e];
      assert Nodes([e]) == [n];
      assert [n][..0] == [];
      assert ByHost([n]) == map[n.host := n];
      assert n in NodeSet(vRegProxys);
    }
  }

  /** Hosts the registry calls active are struck from the sorted hosts only. */
  lemma IndexKept(before: map<string, Node>, index: map<string, Node>, sort: map<string, Node>, tried: seq<string>,
                  activeInReg: set<Node>, passing: set<Node>)
    requires Progress(before, index, sort, tried, activeInReg, passing)
    requires forall h :: h in before ==> before[h] in activeInReg
    ensures index == before && forall h :: h in tried ==> h in before
  {
  }

  lemma SomeHost(m: map<string, Node>, tried: seq<string>)
    requires m != map[] && forall h :: h in m ==> h in tried
    ensures tried != []
  {
    var h :| h in m;
  }

  method OnlyKey(m: map<string, Node>) returns (k: string)
    requires |m| == 1
    ensures m.Keys == {k}
  {
    k :| k in m;
    assert |m.Keys - {k}| == 0;
  }

  /** The source lists the registered proxies by description; any order without repetition will do here. */
  method Arrange(s: set<Node>) returns (r: seq<Node>)
    ensures NodeSet(r) == s
    ensures forall i, j :: 0 <= i < j < |r| ==> r[i] != r[j]
  {
    r := [];
    var todo := s;
    while todo != {}
      invariant s == NodeSet(r) + todo
      invariant forall n :: n in r ==> n !in todo
      invariant forall i, j :: 0 <= i < j < |r| ==> r[i] != r[j]
      decreases |todo|
    {
      var n := AnyOf(todo);
      r := r + [n];
      todo := todo - {n};
    }
  }
}
