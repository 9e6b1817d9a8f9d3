/**
 EndpointManager's plain hash selection: the code modulo the registered proxies names one proxy; when that one cannot be
 used, the active proxies are hashed again and again, each time without the one that failed.
 */
module ModuloHash {
  import opened EndpointRouter
  import opened SmoothSchedule

  function WithoutAt<P>(s: seq<P>, k: nat): (r: seq<P>)
    requires k < |s|
    ensures |r| == |s| - 1
    ensures multiset(s) == multiset(r) + multiset{s[k]}
  {
    assert s == s[..k] + [s[k]] + s[k + 1..];
    s[..k] + s[k + 1..]
  }

  /** The slot a code names: codes go round the n slots. */
  function Slot(code: nat, n: nat): (r: nat)
    requires n > 0
    ensures r < n
  {
    if code < n then code else Slot(code - n, n)
  }

  /** That is the code modulo n, as the source has it. */
  lemma {:induction false} SlotIsRemainder(code: nat, n: nat)
    requires n > 0
    ensures Slot(code, n) == code % n
  {
    if code < n {
      RemainderIs(code, n, 0, code);
    } else {
      var q := (code - n) / n;
      SlotIsRemainder(code - n, n);
      assert code - n == n * q + (code - n) % n;
      Distribute(q, 1, n);
      RemainderIs(code, n, q + 1, (code - n) % n);
    }
  }

  method HashSlot(code: nat, n: nat) returns (r: nat)
    requires n > 0
    ensures r == Slot(code, n)
  {
    SlotIsRemainder(code, n);
    r := code % n;
  }

  lemma RemainderIs(x: nat, d: nat, q: nat, r: nat)
    requires r < d && x == d * q + r
    ensures x % d == r
  {
    var p := x / d;
    assert x == d * p + x % d;
    Distribute(p, 1, d);
    Distribute(q, 1, d);
    if p < q { MultiplyLeq(d, p + 1, q); }
    if q < p { MultiplyLeq(d, q + 1, p); }
  }

  /** The order in which hashing again and again tries the proxies. */
  function Tries<P>(s: seq<P>, code: nat): (r: seq<P>)
    ensures |r| == |s|
    decreases |s|
  {
    if s == [] then [] else
      var k := Slot(code, |s|);
      [s[k]] + Tries(WithoutAt(s, k), code)
  }

  /** First the proxy that the code names modulo their number, then the tries among the others, in their order. */
  lemma TriesFrom<P>(s: seq<P>, code: nat, k: nat)
    requires s != [] && k == Slot(code, |s|)
    ensures Tries(s, code) == [s[k]] + Tries(s[..k] + s[k + 1..], code)
  {
  }

  /** No proxy is left out and none is tried twice. */
  lemma {:induction false} TriesArePermutation<P>(s: seq<P>, code: nat)
    ensures multiset(Tries(s, code)) == multiset(s)
    decreases |s|
  {
    if s != [] {
      var k := Slot(code, |s|);
      TriesArePermutation(WithoutAt(s, k), code);
    }
  }

  lemma SameMembers<P>(s: seq<P>, code: nat)
    ensures forall p :: p in Tries(s, code) <==> p in s
  {
    TriesArePermutation(s, code);
    forall p ensures p in Tries(s, code) <==> p in s {
      assert p in multiset(Tries(s, code)) <==> p in multiset(s);
    }
  }

  function Keep<P(==,!new)>(s: seq<P>, usable: set<P>): (r: seq<P>)
    ensures forall p :: p in r <==> p in s && p in usable
  {
    if s == [] then [] else if s[0] in usable then [s[0]] + Keep(s[1..], usable) else Keep(s[1..], usable)
  }

  /** Those kept stay in their order. */
  lemma {:induction false} KeepOfConcat<P(!new)>(a: seq<P>, b: seq<P>, usable: set<P>)
    ensures Keep(a + b, usable) == Keep(a, usable) + Keep(b, usable)
    ensures |a| == 1 ==> Keep(a, usable) == if a[0] in usable then a else []
  {
    if a == [] {
      assert a + b == b;
    } else {
      assert (a + b)[0] == a[0] && (a + b)[1..] == a[1..] + b;
      KeepOfConcat(a[1..], b, usable);
    }
  }

  ghost predicate IsFirstTry<P>(tries: seq<P>, n: nat, p: P, passing: set<P>) {
    n < |tries| && tries[n] == p && p in passing && forall j :: 0 <= j < n ==> tries[j] !in passing
  }

  /** After n failed tries these proxies are left, and these were usable. */
  ghost predicate Tried<P(!new)>(active: seq<P>, code: nat, left: seq<P>, n: nat, conn: seq<P>, passing: set<P>,
                                 usable: set<P>)
  {
    var all := Tries(active, code);
    && n <= |all| && all[n..] == Tries(left, code)
    && (forall j :: 0 <= j < n ==> all[j] !in passing)
    && conn + Keep(all[n..], usable) == Keep(all, usable)
  }

  lemma OneMoreTry<P(!new)>(active: seq<P>, code: nat, left: seq<P>, n: nat, conn: seq<P>, passing: set<P>,
                            usable: set<P>)
    requires Tried(active, code, left, n, conn, passing, usable) && left != []
    ensures var p := left[Slot(code, |left|)];
      && n < |Tries(active, code)| && Tries(active, code)[n] == p
      && (p !in passing ==>
            Tried(active, code, WithoutAt(left, Slot(code, |left|)), n + 1,
                  if p in usable then conn + [p] else conn, passing, usable))
  {
    var all := Tries(active, code);
    TriesFrom(left, code, Slot(code, |left|));
    assert all[n] == all[n..][0] && all[n..][1..] == all[n + 1..];
  }

  lemma AllTried<P(!new)>(active: seq<P>, code: nat, n: nat, conn: seq<P>, passing: set<P>, usable: set<P>)
    requires Tried(active, code, [], n, conn, passing, usable)
    ensures (forall q :: q in active ==> q !in passing) && conn == Keep(Tries(active, code), usable)
  {
    var all := Tries(active, code);
    SameMembers(active, code);
    assert all[n..] == [] && n == |all|;
    forall q | q in active ensures q !in passing {
      assert q in all;
      var j :| 0 <= j < |all| && all[j] == q;
    }
  }

  method Rehash<P(==,!new)>(active: seq<P>, code: nat, passing: set<P>, usable: set<P>)
    returns (found: bool, p: P, conn: seq<P>, ghost n: nat)
    requires active != []
    ensures found ==> IsFirstTry(Tries(active, code), n, p, passing)
    ensures !found ==> (forall q :: q in active ==> q !in passing) && conn == Keep(Tries(active, code), usable)
  {
    found, p, conn, n := false, active[0], [], 0;
    var thisHash := active;
    while |thisHash| > 0
      invariant Tried(active, code, thisHash, n, conn, passing, usable)
      decreases |thisHash|
    {
      var hash := HashSlot(code, |thisHash|);
      OneMoreTry(active, code, thisHash, n, conn, passing, usable);
      if thisHash[hash] in passing { return true, thisHash[hash], conn, n; }
      if thisHash[hash] in usable { conn := conn + [thisHash[hash]]; }
      thisHash := WithoutAt(thisHash, hash);
      n := n + 1;
    }
    AllTried(active, code, n, conn, passing, usable);
  }

  /** No proxy passes; a usable one is retried if there is any, else any one after resetting its retry time. */
  ghost predicate IsRetry<P>(active: seq<P>, r: Selection<P>, passing: set<P>, usable: set<P>)
    requires r.Retried?
  {
    && (forall p :: p in active ==> p !in passing)
    && r.proxy in active
    && (r.reset <==> forall p :: p in active ==> p !in usable)
    && (!r.reset ==> r.proxy in usable)
  }

  /** What the plain hash selects: the proxy the code names, if the registry calls it active and it passes; else the
      first passing one among the tries; else a usable one; else any, its retry time reset. */
  ghost predicate IsModuloChoice<P(!new)>(r: Selection<P>, n: nat, reg: seq<P>, active: seq<P>, activeInReg: set<P>,
                                          code: nat, passing: set<P>, usable: set<P>)
  {
    if reg == [] then r == NoEndpoint
    else
      var p := reg[Slot(code, |reg|)];
      if p in activeInReg && p in passing then r == Passed(p)
      else
        match r
        case NoEndpoint => active == []
        case Passed(q) => IsFirstTry(Tries(active, code), n, q, passing)
        case Retried(q, reset) =>
          var conn := Keep(Tries(active, code), usable);
          IsRetry(active, r, passing, usable) && (!reset ==> conn != [] && q == conn[Slot(code, |conn|)])
  }

  /** The random number only decides when every active proxy fails and none is usable. */
  method GetHashProxyForNormal<P(==,!new)>(reg: seq<P>, active: seq<P>, activeInReg: set<P>, code: nat,
                                           passing: set<P>, usable: set<P>, random: nat)
    returns (r: Selection<P>, ghost n: nat)
    ensures IsModuloChoice(r, n, reg, active, activeInReg, code, passing, usable)
    ensures r == NoEndpoint <==> reg == [] || (active == [] && reg[Slot(code, |reg|)] !in activeInReg * passing)
  {
    n := 0;
    if |reg| == 0 { return NoEndpoint, n; }
    var hash := HashSlot(code, |reg|);
    if reg[hash] in activeInReg && reg[hash] in passing { return Passed(reg[hash]), n; }
    if |active| == 0 { return NoEndpoint, n; }
    var found, p, conn;
    found, p, conn, n := Rehash(active, code, passing, usable);
    if found { return Passed(p), n; }
    SameMembers(active, code);
    if |conn| > 0 {
      var k := HashSlot(code, |conn|);
      r := Retried(conn[k], false);
      assert r.proxy in conn;
    } else {
      var k := HashSlot(random, |active|);
      r := Retried(active[k], true);
      forall q | q in active ensures q !in usable { assert q !in Keep(Tries(active, code), usable); }
    }
  }
}
