/**
 The consistent-hash ring: a list of points sorted by code, each owned by a host. A host of weight w owns 4*w points,
 the four words of the MD5 digest of each of its w virtual names; the digest is a parameter.
 */
module HashRing {
  datatype Point = Point(code: nat, host: string)

  /** What a lookup yields. The binary search can end one past the last point, which the source then reads. */
  datatype Lookup =
    | NoNode
    | Node(host: string)
    | PastTheEnd

  ghost predicate Sorted(list: seq<Point>) {
    forall i, j :: 0 <= i < j < |list| ==> list[i].code <= list[j].code
  }

  function Hosts(list: seq<Point>): (r: set<string>)
    ensures list == [] ==> r == {}
    ensures forall i :: 0 <= i < |list| ==> list[i].host in r
  {
    set p | p in list :: p.host
  }

  lemma HostsOfSame(a: seq<Point>, b: seq<Point>)
    requires multiset(a) == multiset(b)
    ensures Hosts(a) == Hosts(b)
  {
    forall p ensures p in a <==> p in b { assert p in a <==> p in multiset(a); }
  }

  function VirtualPoints(word: (string, nat, nat) -> nat, host: string, j: nat): (r: seq<Point>)
    ensures |r| == 4 && forall i :: 0 <= i < 4 ==> r[i] == Point(word(host, j, i), host)
  {
    seq(4, i requires 0 <= i < 4 => Point(word(host, j, i), host))
  }

  /** The points a host of this weight owns. */
  function HostPoints(word: (string, nat, nat) -> nat, host: string, weight: nat): (r: seq<Point>)
    ensures |r| == 4 * weight
    ensures forall p :: p in r ==> p.host == host
  {
    if weight == 0 then [] else HostPoints(word, host, weight - 1) + VirtualPoints(word, host, weight - 1)
  }

  lemma {:induction false} HasPoint(word: (string, nat, nat) -> nat, host: string, weight: nat, j: nat, i: nat)
    requires j < weight && i < 4
    ensures Point(word(host, j, i), host) in HostPoints(word, host, weight)
  {
    if j < weight - 1 {
      HasPoint(word, host, weight - 1, j, i);
    } else {
      assert VirtualPoints(word, host, j)[i] == Point(word(host, j, i), host);
    }
  }

  lemma {:induction false} PointOf(word: (string, nat, nat) -> nat, host: string, weight: nat, p: Point)
    returns (j: nat, i: nat)
    requires p in HostPoints(word, host, weight)
    ensures j < weight && i < 4 && p == Point(word(host, j, i), host)
  {
    if p in HostPoints(word, host, weight - 1) {
      j, i := PointOf(word, host, weight - 1, p);
    } else {
      j := weight - 1;
      i :| i < 4 && VirtualPoints(word, host, j)[i] == p;
    }
  }

  /** How many points of a list a host owns. */
  function PointsOf(list: seq<Point>, h: string): nat {
    if list == [] then 0 else PointsOf(list[..|list| - 1], h) + if list[|list| - 1].host == h then 1 else 0
  }

  lemma {:induction false} PointsOfConcat(a: seq<Point>, b: seq<Point>, h: string)
    ensures PointsOf(a + b, h) == PointsOf(a, h) + PointsOf(b, h)
  {
    if b == [] {
      assert a + b == a;
    } else {
      assert (a + b)[..|a + b| - 1] == a + b[..|b| - 1];
      PointsOfConcat(a, b[..|b| - 1], h);
    }
  }

  lemma {:induction false} PointsOfOneHost(list: seq<Point>, host: string, h: string)
    requires forall p :: p in list ==> p.host == host
    ensures PointsOf(list, h) == if h == host then |list| else 0
  {
    if list != [] { PointsOfOneHost(list[..|list| - 1], host, h); }
  }

  lemma {:induction false} PointsOfSame(a: seq<Point>, b: seq<Point>, h: string)
    requires multiset(a) == multiset(b)
    ensures PointsOf(a, h) == PointsOf(b, h)
  {
    if a == [] {
      assert |multiset(b)| == |b|;
    } else {
      var n := |a| - 1;
      assert a[n] in multiset(b);
      var i :| 0 <= i < |b| && b[i] == a[n];
      WithoutPoint(a, n, h);
      WithoutPoint(b, i, h);
      assert a[..n] + a[n + 1..] == a[..n];
      assert multiset(a[..n]) == multiset(a) - multiset{a[n]};
      PointsOfSame(a[..n], b[..i] + b[i + 1..], h);
    }
  }

  lemma WithoutPoint(b: seq<Point>, i: nat, h: string)
    requires i < |b|
    ensures multiset(b) == multiset(b[..i] + b[i + 1..]) + multiset{b[i]}
    ensures PointsOf(b, h) == PointsOf(b[..i] + b[i + 1..], h) + if b[i].host == h then 1 else 0
  {
    assert b == b[..i + 1] + b[i + 1..] && b[..i + 1] == b[..i] + [b[i]];
    PointsOfConcat(b[..i + 1], b[i + 1..], h);
    PointsOfConcat(b[..i], b[i + 1..], h);
    assert b[..i + 1][..i] == b[..i];
  }

  // ---- lookup

  /** The point the search settles on: the first one, unless the code lies between two neighbours. */
  ghost predicate Settles(list: seq<Point>, code: nat, k: nat) {
    && k < |list|
    && (k == 0 ==> code <= list[0].code || list[|list| - 1].code < code)
    && (k > 0 ==> list[0].code < code && list[k - 1].code <= code < list[k].code)
  }

  /** The rule of a consistent-hash ring: the first point at or after the code, and past the last point the first. */
  ghost predicate Owns(list: seq<Point>, code: nat, k: nat) {
    && k < |list|
    && (code <= list[k].code || (k == 0 && list[|list| - 1].code < code))
    && forall j :: 0 <= j < k ==> list[j].code < code
  }

  ghost predicate IsTop(list: seq<Point>, code: nat) {
    list != [] && list[0].code < code && code == list[|list| - 1].code
  }

  method GetNodeName(list: seq<Point>, code: nat) returns (r: Lookup, ghost k: nat)
    requires Sorted(list)
    ensures r == NoNode <==> list == []
    ensures r == PastTheEnd <==> IsTop(list, code)
    ensures r.Node? ==> Settles(list, code, k) && r.host == list[k].host
  {
    k := 0;
    if |list| == 0 { return NoNode, k; }
    var low, high := 0, |list|;
    if code <= list[0].code || list[high - 1].code < code { return Node(list[0].host), k; }
    while low < high - 1
      invariant 0 <= low < high <= |list|
      invariant list[low].code <= code
      invariant high < |list| ==> code < list[high].code
    {
      var mid := (low + high) / 2;
      if list[mid].code > code { high := mid; } else { low := mid; }
    }
    if low + 1 == |list| { return PastTheEnd, k; }
    k := low + 1;
    r := Node(list[low + 1].host);
  }

  /** A lookup follows the ring's rule exactly when the code is not that of a point behind the first. */
  lemma FollowsTheRule(list: seq<Point>, code: nat, k: nat)
    requires Sorted(list) && Settles(list, code, k)
    ensures Owns(list, code, k) <==> code <= list[0].code || forall j :: 0 <= j < |list| ==> list[j].code != code
  {
    if k > 0 && Owns(list, code, k) {
      assert list[k - 1].code < code;
      forall j | 0 <= j < |list| ensures list[j].code != code {
        if j < k { assert list[j].code < code; } else { assert list[k].code <= list[j].code; }
      }
    } else if k == 0 && list[0].code < code {
      forall j | 0 <= j < |list| ensures list[j].code != code { assert list[j].code <= list[|list| - 1].code; }
    }
  }

  /** Looking up the code of a point in the middle yields the next point, not its own. */
  lemma OwnPointIsMissed(a: string, b: string, c: string)
    requires a != b && b != c
    ensures var list := [Point(1, a), Point(2, b), Point(3, c)];
      Sorted(list) && Settles(list, 2, 2) && Owns(list, 2, 1) && !Settles(list, 2, 1)
  {
  }

  /** The code of the last point is answered by no point at all. */
  lemma TopSettlesNowhere(list: seq<Point>, code: nat)
    requires Sorted(list) && IsTop(list, code)
    ensures forall k: nat :: !Settles(list, code, k)
  {
    forall k: nat ensures !Settles(list, code, k) {
      if 0 < k < |list| { assert list[k].code <= list[|list| - 1].code; }
    }
  }

  // ---- taking a host out

  /** The same ring without the points of one host. */
  ghost predicate IsWithout(list': seq<Point>, list: seq<Point>, h: string) {
    forall p :: p in list' <==> p in list && p.host != h
  }

  lemma SmallerRing(list': seq<Point>, list: seq<Point>, h: string, k: nat)
    requires Sorted(list') && Sorted(list) && IsWithout(list', list, h) && k < |list| && list[k].host != h
    ensures list' != [] && list[0].code <= list'[0].code <= list[k].code
    ensures list[k].code <= list'[|list'| - 1].code <= list[|list| - 1].code
    ensures exists j :: 0 <= j < |list'| && list'[j] == list[k]
  {
    assert list[k] in list && list[k] in list';
    var j :| 0 <= j < |list'| && list'[j] == list[k];
    assert list'[0] in list' && list'[|list'| - 1] in list';
    var a :| 0 <= a < |list| && list[a] == list'[0];
    var b :| 0 <= b < |list| && list[b] == list'[|list'| - 1];
  }

  lemma NextIsLeast(list: seq<Point>, code: nat, k: nat, a: nat)
    requires Sorted(list) && Settles(list, code, k) && k > 0 && a < |list| && code < list[a].code
    ensures list[k].code <= list[a].code
  {
    assert a > k - 1;
  }

  /** When a host is taken out, a code that another host answered keeps its point, unless it is the code of the point
      that has become the first and was not the first before. */
  lemma OthersKeepTheirCodes(list': seq<Point>, list: seq<Point>, h: string, code: nat, k: nat, k': nat)
    requires Sorted(list') && Sorted(list) && IsWithout(list', list, h)
    requires Settles(list, code, k) && list[k].host != h && Settles(list', code, k')
    ensures list'[k'].code == list[k].code <==> !(list[0].code < code && code == list'[0].code)
  {
    SmallerRing(list', list, h, k);
    var j :| 0 <= j < |list'| && list'[j] == list[k];
    if k > 0 && k' > 0 {
      assert list'[k'] in list' && list'[k'] in list;
      var a :| 0 <= a < |list| && list[a] == list'[k'];
      NextIsLeast(list, code, k, a);
      NextIsLeast(list', code, k', j);
    } else if k > 0 && code < list'[0].code {
      assert list'[0] in list' && list'[0] in list;
      var a :| 0 <= a < |list| && list[a] == list'[0];
      NextIsLeast(list, code, k, a);
    }
  }

  /** ... and the search finds a point for it. */
  lemma OthersAreFound(list': seq<Point>, list: seq<Point>, h: string, code: nat, k: nat)
    requires Sorted(list') && Sorted(list) && IsWithout(list', list, h)
    requires Settles(list, code, k) && list[k].host != h
    ensures list' != [] && !IsTop(list', code)
  {
    SmallerRing(list', list, h, k);
  }

  /** Where no two hosts share a code, the host stays the same. */
  lemma OthersKeepTheirHosts(list': seq<Point>, list: seq<Point>, h: string, code: nat, k: nat, k': nat)
    requires Sorted(list') && Sorted(list) && IsWithout(list', list, h)
    requires forall p, q :: p in list && q in list && p.code == q.code ==> p.host == q.host
    requires Settles(list, code, k) && list[k].host != h && Settles(list', code, k')
    ensures list'[k'].host == list[k].host
      <==> !(list[0].code < code && code == list'[0].code) || list'[0].host == list[k].host
  {
    OthersKeepTheirCodes(list', list, h, code, k, k');
    assert list[k] in list && list'[k'] in list' && list'[0] in list';
  }

  // ---- sorting

  function InsertPoint(list: seq<Point>, p: Point): (r: seq<Point>)
    ensures multiset(r) == multiset(list) + multiset{p}
  {
    if list == [] || p.code <= list[0].code then [p] + list
    else
      assert list == [list[0]] + list[1..];
      [list[0]] + InsertPoint(list[1..], p)
  }

  lemma {:induction false} InsertKeepsOrder(list: seq<Point>, p: Point)
    requires Sorted(list)
    ensures Sorted(InsertPoint(list, p))
  {
    if list != [] && p.code > list[0].code {
      InsertKeepsOrder(list[1..], p);
      var rest := InsertPoint(list[1..], p);
      forall j | 0 <= j < |rest| ensures list[0].code <= rest[j].code {
        assert rest[j] in multiset(rest);
        assert rest[j] in list[1..] || rest[j] == p;
      }
    }
  }

  /** Some sorted arrangement of the points; ties may come out in any order. */
  method SortPoints(list: seq<Point>) returns (r: seq<Point>)
    ensures Sorted(r) && multiset(r) == multiset(list)
  {
    r := [];
    for i := 0 to |list|
      invariant Sorted(r) && multiset(r) == multiset(list[..i])
    {
      InsertKeepsOrder(r, list[i]);
      assert list[..i + 1] == list[..i] + [list[i]];
      r := InsertPoint(r, list[i]);
    }
    assert list[..|list|] == list;
  }
}
