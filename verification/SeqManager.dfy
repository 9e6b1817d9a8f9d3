/**
 The id allocator: a free list threaded through an array, with head, tail and a sentinel.

 The class is proved against a queue of free ids; the lemmas at the end say what the queue means for whole runs.
 */
module SeqManager {
  import opened Collections

  const MAX_UNSIGN_SHORT: nat := 0xffff

  datatype SeqInfo = SeqInfo(next: nat, free: bool)

  /** Follow the links from `at` until the sentinel, at most `fuel` slots. */
  function Walk(p: seq<SeqInfo>, at: nat, fuel: nat): seq<nat>
    decreases fuel
  {
    if at == MAX_UNSIGN_SHORT || fuel == 0 || at >= |p| then [] else [at] + Walk(p, p[at].next, fuel - 1)
  }

  /** The links visit the queue in order and end at the sentinel. */
  ghost predicate Linked(p: seq<SeqInfo>, q: seq<nat>) {
    && (forall i :: 0 <= i < |q| ==> q[i] < |p|)
    && (forall i {:trigger p[q[i]].next} :: 0 <= i < |q| - 1 ==> p[q[i]].next == q[i + 1])
    && (q != [] ==> p[q[|q| - 1]].next == MAX_UNSIGN_SHORT)
  }

  lemma {:induction false} WalkIsQueue(p: seq<SeqInfo>, q: seq<nat>, fuel: nat)
    requires Linked(p, q) && |p| <= MAX_UNSIGN_SHORT && |q| <= fuel
    ensures Walk(p, if q == [] then MAX_UNSIGN_SHORT else q[0], fuel) == q
  {
    if q != [] {
      forall i | 0 <= i < |q| - 2 ensures p[q[1..][i]].next == q[1..][i + 1] { assert p[q[i + 1]].next == q[i + 2]; }
      if |q| > 1 { assert p[q[0]].next == q[1]; }
      WalkIsQueue(p, q[1..], fuel - 1);
    }
  }

  lemma AppendKeepsLinks(p: seq<SeqInfo>, r: seq<SeqInfo>, q: seq<nat>, id: nat)
    requires Linked(p, q) && NoRepeats(q) && |r| == |p| && id < |p| && id !in q
    requires r[id].next == MAX_UNSIGN_SHORT && (q != [] ==> r[q[|q| - 1]].next == id)
    requires forall k :: 0 <= k < |p| && k != id && (q != [] ==> k != q[|q| - 1]) ==> r[k].next == p[k].next
    ensures Linked(r, q + [id]) && NoRepeats(q + [id])
  {
    var s := q + [id];
    forall i | 0 <= i < |s| - 1 ensures r[s[i]].next == s[i + 1] {
      if i < |q| - 1 { assert p[q[i]].next == q[i + 1] && q[i] != q[|q| - 1]; }
    }
  }

  class Manager {
    const num: nat
    const p: array<SeqInfo>
    var free: nat
    var freeTail: nat
    ghost var queue: seq<nat>

    ghost predicate Valid()
      reads this, p
    {
      && 0 < num < MAX_UNSIGN_SHORT && p.Length == num
      && Linked(p[..], queue) && NoRepeats(queue)
      && (forall i: nat :: i < num ==> (p[i].free <==> i in queue))
      && (queue == [] ==> free == freeTail == MAX_UNSIGN_SHORT)
      && (queue != [] ==> free == queue[0] && freeTail == queue[|queue| - 1])
    }

    constructor (iNum: nat)
      requires 0 < iNum < MAX_UNSIGN_SHORT
      ensures Valid() && fresh(p) && num == iNum
      ensures queue == Range(iNum)
    {
      num := iNum;
      p := new SeqInfo[iNum](i => SeqInfo(0, false));
      free, freeTail := 0, iNum - 1;
      queue := Range(iNum);
      new;
      for i := 0 to iNum
        invariant forall k: nat :: k < i ==> p[k] == SeqInfo(k + 1, true)
        invariant free == 0 && freeTail == iNum - 1 && queue == Range(iNum)
        modifies p
      {
        p[i] := SeqInfo(i + 1, true);
      }
      p[iNum - 1] := p[iNum - 1].(next := MAX_UNSIGN_SHORT);
      forall i: nat | i < num ensures i in queue { assert queue[i] == i; }
    }

    /** The pool this manager implements: the free queue and the ids that are out. */
    ghost function View(): Pool
      reads this
    {
      Pool(queue, set i | 0 <= i < num && i !in queue)
    }

    /** Hand out the id at the head of the free list. The source aborts when none is left. */
    method Get() returns (id: nat)
      requires Valid() && queue != []
      modifies this, p
      ensures Valid() && id == old(queue)[0]
      ensures View() == Do(old(View()), Acquire)
    {
      assert p[free].free;
      id := free;
      if free == freeTail {
        OnlyOne(queue);
        assert p[id].next == MAX_UNSIGN_SHORT;
        freeTail := MAX_UNSIGN_SHORT;
      }
      assert |queue| > 1 ==> p[queue[0]].next == queue[1];
      free := p[id].next;
      p[id] := p[id].(free := false);
      queue := queue[1..];
      assert forall i {:trigger p[..][queue[i]].next} :: 0 <= i < |queue| - 1 ==>
        p[..][queue[i]].next == old(p[..])[old(queue)[i + 1]].next;
      TakeHead(old(queue), num);
    }

    /** Give an id back at the tail. The source aborts on an id that is not out. */
    method Del(seqNo: nat)
      requires Valid() && seqNo < num && seqNo !in queue
      modifies this, p
      ensures Valid()
      ensures View() == Do(old(View()), Release(seqNo))
    {
      p[seqNo] := p[seqNo].(next := MAX_UNSIGN_SHORT);
      if freeTail == MAX_UNSIGN_SHORT {
        free := seqNo;
      } else {
        p[freeTail] := p[freeTail].(next := seqNo);
      }
      p[seqNo] := p[seqNo].(free := true);
      freeTail := seqNo;
      AppendKeepsLinks(old(p[..]), p[..], queue, seqNo);
      GiveTail(queue, seqNo, num);
      queue := queue + [seqNo];
    }

    /** Walking from the head visits exactly the free-flagged slots, once each, and ends at the tail. */
    lemma FreeListIsExact()
      requires Valid()
      ensures Walk(p[..], free, num) == queue && NoRepeats(queue)
      ensures forall i: nat :: i < num ==> (p[i].free <==> i in Walk(p[..], free, num))
      ensures queue != [] ==> queue[|queue| - 1] == freeTail
    {
      DistinctFits(queue, num);
      WalkIsQueue(p[..], queue, num);
    }
  }

  lemma TakeHead(q: seq<nat>, n: nat)
    requires q != [] && NoRepeats(q) && q[0] < n
    ensures (set i | 0 <= i < n && i !in q[1..]) == (set i | 0 <= i < n && i !in q) + {q[0]}
  {
    assert q == [q[0]] + q[1..];
  }

  lemma GiveTail(q: seq<nat>, id: nat, n: nat)
    requires id < n
    ensures forall i :: i in q + [id] <==> i in q || i == id
    ensures (set i | 0 <= i < n && i !in q + [id]) == (set i | 0 <= i < n && i !in q) - {id}
  {
  }

  lemma OnlyOne(q: seq<nat>)
    requires q != [] && NoRepeats(q) && q[0] == q[|q| - 1]
    ensures |q| == 1
  {
  }

  /** Distinct ids below n: no more than n of them. */
  lemma {:induction false} DistinctFits(q: seq<nat>, n: nat)
    requires NoRepeats(q) && forall i :: 0 <= i < |q| ==> q[i] < n
    ensures |q| <= n
  {
    if q != [] {
      assert q[0] < n;
      var m := n - 1;
      if k :| 0 <= k < |q| && q[k] == m {
        var r := q[..k] + q[k + 1..];
        assert NoRepeats(r) by {
          forall i, j | 0 <= i < j < |r| ensures r[i] != r[j] {
            assert r[i] == q[if i < k then i else i + 1] && r[j] == q[if j < k then j else j + 1];
          }
        }
        forall i | 0 <= i < |r| ensures r[i] < m { assert r[i] == q[if i < k then i else i + 1]; }
        DistinctFits(r, m);
      } else {
        DistinctFits(q, m);
      }
    }
  }

  function Range(n: nat): (r: seq<nat>)
    ensures |r| == n && forall i :: 0 <= i < n ==> r[i] == i
  {
    seq(n, i => i)
  }

  // ---- runs of the pool

  datatype Pool = Pool(queue: seq<nat>, held: set<nat>)

  datatype Op = Acquire | Release(id: nat)

  predicate CanDo(s: Pool, op: Op) {
    match op
    case Acquire => s.queue != []
    case Release(id) => id in s.held
  }

  function Do(s: Pool, op: Op): Pool
    requires op.Acquire? ==> s.queue != []
  {
    match op
    case Acquire => Pool(s.queue[1..], s.held + {s.queue[0]})
    case Release(id) => Pool(s.queue + [id], s.held - {id})
  }

  predicate Legal(s: Pool, ops: seq<Op>)
    decreases |ops|
  {
    ops == [] || (CanDo(s, ops[0]) && Legal(Do(s, ops[0]), ops[1..]))
  }

  function Final(s: Pool, ops: seq<Op>): Pool
    requires Legal(s, ops)
    decreases |ops|
  {
    if ops == [] then s else Final(Do(s, ops[0]), ops[1..])
  }

  /** The ids handed out during a run, in order. */
  function Issued(s: Pool, ops: seq<Op>): seq<nat>
    requires Legal(s, ops)
    decreases |ops|
  {
    if ops == [] then [] else
    (if ops[0].Acquire? then [s.queue[0]] else []) + Issued(Do(s, ops[0]), ops[1..])
  }

  /** The ids given back during a run, in order. */
  function Released(ops: seq<Op>): seq<nat> {
    if ops == [] then [] else (if ops[0].Release? then [ops[0].id] else []) + Released(ops[1..])
  }

  /** First in, first out: over any run, the ids issued and then those still free are the ids that were free at the
      start followed by the ids released, in that order. */
  lemma {:induction false} FirstInFirstOut(s: Pool, ops: seq<Op>)
    requires Legal(s, ops)
    ensures Issued(s, ops) + Final(s, ops).queue == s.queue + Released(ops)
    decreases |ops|
  {
    if ops == [] {
      assert s.queue + [] == s.queue;
    } else {
      var t, rest := Do(s, ops[0]), ops[1..];
      var out := if ops[0].Acquire? then [s.queue[0]] else [];
      var back := if ops[0].Release? then [ops[0].id] else [];
      FirstInFirstOut(t, rest);
      Chain(out, t.queue, s.queue, back, Issued(t, rest), Final(t, rest).queue, Released(rest));
    }
  }

  lemma Chain(out: seq<nat>, t: seq<nat>, q: seq<nat>, back: seq<nat>, i: seq<nat>, f: seq<nat>, r: seq<nat>)
    requires out + t == q + back && i + f == t + r
    ensures (out + i) + f == q + (back + r)
  {
    assert (out + i) + f == out + (i + f);
    assert out + (t + r) == (out + t) + r;
    assert q + (back + r) == (q + back) + r;
  }

  ghost predicate Sound(s: Pool, num: nat) {
    && NoRepeats(s.queue)
    && (forall i :: 0 <= i < |s.queue| ==> s.queue[i] < num && s.queue[i] !in s.held)
    && (forall i :: 0 <= i < num ==> i in s.queue || i in s.held)
    && (forall i :: i in s.held ==> 0 <= i < num)
    && |s.queue| + |s.held| == num
  }

  lemma StepKeepsSound(s: Pool, op: Op, num: nat)
    requires Sound(s, num) && CanDo(s, op)
    ensures Sound(Do(s, op), num)
  {
    if op.Acquire? {
      assert s.queue == [s.queue[0]] + s.queue[1..];
    }
  }

  /** Over any run no id is out twice, none is both out and free, and free plus held is always `num`. */
  lemma {:induction false} RunsKeepSound(s: Pool, ops: seq<Op>, num: nat)
    requires Sound(s, num) && Legal(s, ops)
    ensures Sound(Final(s, ops), num)
    decreases |ops|
  {
    if ops != [] {
      StepKeepsSound(s, ops[0], num);
      RunsKeepSound(Do(s, ops[0]), ops[1..], num);
    }
  }

  /** A fresh manager: the first `num` requests get 0, 1, 2, ... and every later one the longest released id. */
  lemma FreshManagerIssues(ops: seq<Op>, num: nat, k: nat)
    requires Legal(Pool(Range(num), {}), ops) && k < |Issued(Pool(Range(num), {}), ops)|
    ensures Sound(Final(Pool(Range(num), {}), ops), num)
    ensures k >= num ==> k - num < |Released(ops)|
    ensures Issued(Pool(Range(num), {}), ops)[k] == if k < num then k else Released(ops)[k - num]
  {
    var s := Pool(Range(num), {});
    FirstInFirstOut(s, ops);
    forall i | 0 <= i < num ensures i in s.queue { assert s.queue[i] == i; }
    RunsKeepSound(s, ops, num);
    assert Issued(s, ops)[k] == (Issued(s, ops) + Final(s, ops).queue)[k];
  }
}
