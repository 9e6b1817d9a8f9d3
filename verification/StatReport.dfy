/**
 Statistics reporting: cutting the collected records into datagram-sized batches, and merging maps of records.
 */
module StatReport {
  import opened Collections

  const STAT_PROTOCOL_LEN: nat := 100

  datatype Head = Head(
    masterName: string, slaveName: string, interfaceName: string,
    slaveSetName: string, slaveSetArea: string, slaveSetID: string,
    masterIp: string, slaveIp: string, slavePort: int, returnValue: int)

  datatype Body = Body(
    count: int, timeoutCount: int, execCount: int, intervalCount: map<int, int>,
    totalRspTime: int, maxRspTime: int, minRspTime: int)

  datatype Record = Record(head: Head, body: Body)

  // ---- batching

  /** The estimated size of a record on the wire. */
  function Size(r: Record): nat {
    STAT_PROTOCOL_LEN + |r.head.masterName| + |r.head.slaveName| + |r.head.interfaceName|
      + |r.head.slaveSetName| + |r.head.slaveSetArea| + |r.head.slaveSetID|
  }

  /** It grows with the names of the caller, the callee, the interface and the set, byte by byte. */
  lemma SizeIsTextLength(r: Record)
    ensures var h := r.head;
      Size(r) == 100 + |h.masterName + h.slaveName + h.interfaceName + h.slaveSetName + h.slaveSetArea + h.slaveSetID|
  {
  }

  function BatchSize(b: seq<Record>): nat {
    if b == [] then 0 else Size(b[0]) + BatchSize(b[1..])
  }

  function Joined(batches: seq<seq<Record>>): seq<Record> {
    if batches == [] then [] else batches[0] + Joined(batches[1..])
  }

  lemma {:induction false} BatchSizeOfConcat(a: seq<Record>, b: seq<Record>)
    ensures BatchSize(a + b) == BatchSize(a) + BatchSize(b)
  {
    if a == [] {
      assert a + b == b;
    } else {
      assert (a + b)[1..] == a[1..] + b;
      BatchSizeOfConcat(a[1..], b);
    }
  }

  lemma {:induction false} JoinedOfPush(batches: seq<seq<Record>>, b: seq<Record>)
    ensures Joined(batches + [b]) == Joined(batches) + b
  {
    if batches == [] {
      assert Joined([b]) == b + Joined([]);
    } else {
      assert (batches + [b])[1..] == batches[1..] + [b];
      JoinedOfPush(batches[1..], b);
    }
  }

  /** A batch respects the limit, or is one record that does not fit by itself. */
  predicate Bounded(b: seq<Record>, limit: int) {
    BatchSize(b) <= limit || |b| == 1
  }

  /** `next` starts with a record that did not fit into `b` any more. */
  predicate Full(b: seq<Record>, next: seq<Record>, limit: int) {
    next != [] && BatchSize(b) + Size(next[0]) > limit
  }

  /** Only a first record that does not fit by itself is preceded by a batch, and that batch is empty. */
  predicate EmptyOnlyBeforeOversized(batches: seq<seq<Record>>, records: seq<Record>, limit: int) {
    && (forall k :: 1 <= k < |batches| ==> batches[k] != [])
    && (batches != [] && records != [] ==> (batches[0] == [] <==> Size(records[0]) > limit))
  }

  /** The batches are the records in order, none too big, each closed only when the next record did not fit. */
  ghost predicate Greedy(batches: seq<seq<Record>>, records: seq<Record>, limit: int) {
    && Joined(batches) == records
    && (forall k :: 0 <= k < |batches| ==> batches[k] == [] || Bounded(batches[k], limit))
    && (forall k :: 0 <= k < |batches| - 1 ==> Full(batches[k], batches[k + 1], limit))
    && EmptyOnlyBeforeOversized(batches, records, limit)
    && (records != [] ==> batches[|batches| - 1] != [])
  }

  class Reporter {
    var pending: seq<Record>   // the collected map, in its key order
    const maxReportSize: int

    constructor (limit: int)
      ensures maxReportSize == limit && pending == []
    {
      maxReportSize, pending := limit, [];
    }

    /** Take all collected records and send them in batches; without a stat proxy they are dropped. */
    method ReportMicMsg(hasProxy: bool) returns (sent: seq<seq<Record>>, ghost batches: seq<seq<Record>>)
      modifies this
      ensures pending == []
      ensures Greedy(batches, old(pending), maxReportSize)
      ensures sent == if hasProxy then batches else []
    {
      var records := pending;
      pending := [];
      sent, batches := [], [];
      if records == [] { return; }
      var length := 0;
      var temp := [];
      for i := 0 to |records|
        invariant pending == [] && length == BatchSize(temp)
        invariant Cutting(batches, temp, records[..i], maxReportSize)
        invariant sent == if hasProxy then batches else []
      {
        assert records[..i + 1] == records[..i] + [records[i]];
        var size := Size(records[i]);
        length := length + size;
        if length > maxReportSize {
          CutHere(batches, temp, records[..i], records[i], maxReportSize);
          if hasProxy { sent := sent + [temp]; }
          batches := batches + [temp];
          length := size;
          temp := [];
          assert temp + [records[i]] == [records[i]];
        } else {
          GrowHere(batches, temp, records[..i], records[i], maxReportSize);
        }
        BatchSizeOfConcat(temp, [records[i]]);
        temp := temp + [records[i]];
      }
      assert records[..|records|] == records;
      if |temp| != 0 {
        if hasProxy { sent := sent + [temp]; }
        batches := batches + [temp];
      }
    }
  }

  /** The loop invariant: with the open batch added, the batches cut so far are a greedy cut of what was read. */
  ghost predicate Cutting(batches: seq<seq<Record>>, open: seq<Record>, read: seq<Record>, limit: int) {
    && (read == [] ==> batches == [] && open == [])
    && (read != [] ==> open != [] && Greedy(batches + [open], read, limit))
  }

  lemma CutHere(batches: seq<seq<Record>>, open: seq<Record>, read: seq<Record>, r: Record, limit: int)
    requires Cutting(batches, open, read, limit) && BatchSize(open) + Size(r) > limit
    ensures Cutting(batches + [open], [r], read + [r], limit)
  {
    var a, b := batches + [open], batches + [open] + [[r]];
    JoinedOfPush(a, [r]);
    if read == [] { assert Joined([[]]) == []; }
    assert b[|a|] == [r] && b[..|a|] == a;
    assert forall k :: 0 <= k < |a| ==> b[k] == a[k];
  }

  lemma GrowHere(batches: seq<seq<Record>>, open: seq<Record>, read: seq<Record>, r: Record, limit: int)
    requires Cutting(batches, open, read, limit) && BatchSize(open) + Size(r) <= limit
    ensures Cutting(batches, open + [r], read + [r], limit)
  {
    var a, b := batches + [open], batches + [open + [r]];
    JoinedOfPush(batches, open);
    JoinedOfPush(batches, open + [r]);
    BatchSizeOfConcat(open, [r]);
    assert forall k :: 0 <= k < |batches| ==> b[k] == a[k] == batches[k];
  }

  /** A greedy cut without the leading empty batch. */
  ghost predicate Filled(batches: seq<seq<Record>>, records: seq<Record>, limit: int) {
    && Joined(batches) == records
    && (forall k :: 0 <= k < |batches| ==> batches[k] != [] && Bounded(batches[k], limit))
    && (forall k :: 0 <= k < |batches| - 1 ==> Full(batches[k], batches[k + 1], limit))
  }

  /** Greedy cutting leaves no choice: the records and the limit determine every batch. */
  lemma GreedyIsUnique(a: seq<seq<Record>>, b: seq<seq<Record>>, records: seq<Record>, limit: int)
    requires records != [] && Greedy(a, records, limit) && Greedy(b, records, limit)
    ensures a == b
  {
    if a[0] == [] {
      assert Joined(a[1..]) == records && Joined(b[1..]) == records;
      FilledIsUnique(a[1..], b[1..], records, limit);
      assert a == [a[0]] + a[1..] && b == [b[0]] + b[1..];
    } else {
      FilledIsUnique(a, b, records, limit);
    }
  }

  lemma {:induction false} FilledIsUnique(a: seq<seq<Record>>, b: seq<seq<Record>>, records: seq<Record>, limit: int)
    requires Filled(a, records, limit) && Filled(b, records, limit)
    ensures a == b
    decreases |a|
  {
    if a != [] && b != [] {
      NotShorter(a, b, records, limit);
      NotShorter(b, a, records, limit);
      var rest := records[|a[0]|..];
      assert a[0] == records[..|a[0]|] == b[0];
      assert Joined(a[1..]) == rest && Joined(b[1..]) == rest;
      FilledIsUnique(a[1..], b[1..], rest, limit);
      assert a == [a[0]] + a[1..] && b == [b[0]] + b[1..];
    }
  }

  /** A first batch shorter than that of another cut would have been closed while the next record still fitted. */
  lemma NotShorter(a: seq<seq<Record>>, b: seq<seq<Record>>, records: seq<Record>, limit: int)
    requires Filled(a, records, limit) && Filled(b, records, limit) && a != [] && b != []
    ensures |a[0]| >= |b[0]|
  {
    var n := |a[0]|;
    if n < |b[0]| {
      assert a[0] == records[..n] && b[0] == records[..|b[0]|];
      assert Joined(a) == a[0] + Joined(a[1..]);
      if |a| > 1 {
        assert Joined(a[1..]) == a[1] + Joined(a[1..][1..]);
        assert records[n] == a[1][0];
        var longer := b[0][n + 1..];
        assert b[0] == a[0] + [records[n]] + longer;
        BatchSizeOfConcat(a[0], [records[n]]);
        BatchSizeOfConcat(a[0] + [records[n]], longer);
      }
    }
  }

  // ---- merging

  function MergeCounts(a: map<int, int>, b: map<int, int>): (m: map<int, int>)
    ensures m.Keys == a.Keys + b.Keys
    ensures forall k :: k in m ==> m[k] == CountAt(a, k) + CountAt(b, k)
  {
    map k | k in a.Keys + b.Keys :: CountAt(a, k) + CountAt(b, k)
  }

  function CountAt(m: map<int, int>, k: int): int {
    if k in m then m[k] else 0
  }

  function Max(a: int, b: int): int { if a < b then b else a }

  function Min(a: int, b: int): int { if a > b then b else a }

  function MergeBody(a: Body, b: Body): Body {
    Body(a.count + b.count, a.timeoutCount + b.timeoutCount, a.execCount + b.execCount,
         MergeCounts(a.intervalCount, b.intervalCount),
         a.totalRspTime + b.totalRspTime, Max(a.maxRspTime, b.maxRspTime), Min(a.minRspTime, b.minRspTime))
  }

  type Stats = map<Head, Body>

  function Merge(a: Stats, b: Stats): (m: Stats)
    ensures m.Keys == a.Keys + b.Keys
  {
    map h | h in a.Keys + b.Keys ::
      if h in a && h in b then MergeBody(a[h], b[h]) else if h in a then a[h] else b[h]
  }

  /** The inner loop of addMicMsg, over the interval counts of one record, in any order. */
  method AddCounts(old_: map<int, int>, add: map<int, int>) returns (merged: map<int, int>)
    ensures merged == MergeCounts(old_, add)
  {
    merged := old_;
    var left: set<int> := add.Keys;
    while left != {}
      invariant left <= add.Keys && merged.Keys == old_.Keys + (add.Keys - left)
      invariant forall k :: k in merged ==> merged[k] == CountAt(old_, k) + if k in left then 0 else CountAt(add, k)
      decreases left
    {
      var k := AnyOf(left);
      if k !in merged { merged := merged[k := add[k]]; } else { merged := merged[k := merged[k] + add[k]]; }
      left := left - {k};
    }
  }

  method AddRecord(o: Body, a: Body) returns (r: Body)
    ensures r == MergeBody(o, a)
  {
    var counts := AddCounts(o.intervalCount, a.intervalCount);
    var longest, shortest := o.maxRspTime, o.minRspTime;
    if longest < a.maxRspTime { longest := a.maxRspTime; }
    if shortest > a.minRspTime { shortest := a.minRspTime; }
    r := Body(o.count + a.count, o.timeoutCount + a.timeoutCount, o.execCount + a.execCount,
              counts, o.totalRspTime + a.totalRspTime, longest, shortest);
  }

  /** Add every record of `add` to `old_`, in any order. */
  method AddMicMsg(old_: Stats, add: Stats) returns (merged: Stats)
    ensures merged == Merge(old_, add)
  {
    merged := old_;
    var left: set<Head> := add.Keys;
    while left != {}
      invariant left <= add.Keys && merged.Keys == old_.Keys + (add.Keys - left)
      invariant forall h :: h in merged && h in left ==> merged[h] == old_[h]
      invariant forall h :: h in merged && h !in left ==> merged[h] == Merge(old_, add)[h]
      decreases left
    {
      var h := AnyOf(left);
      if h !in merged {
        merged := merged[h := add[h]];
      } else {
        var r := AddRecord(merged[h], add[h]);
        merged := merged[h := r];
      }
      left := left - {h};
    }
  }

  lemma MergeBodyCommutes(a: Body, b: Body)
    ensures MergeBody(a, b) == MergeBody(b, a)
  {
    assert MergeCounts(a.intervalCount, b.intervalCount) == MergeCounts(b.intervalCount, a.intervalCount);
  }

  lemma MergeBodyAssociates(a: Body, b: Body, c: Body)
    ensures MergeBody(MergeBody(a, b), c) == MergeBody(a, MergeBody(b, c))
  {
    var x, y, z := a.intervalCount, b.intervalCount, c.intervalCount;
    assert MergeCounts(MergeCounts(x, y), z) == MergeCounts(x, MergeCounts(y, z));
  }

  lemma MergeCommutes(a: Stats, b: Stats)
    ensures Merge(a, b) == Merge(b, a)
  {
    forall h | h in a && h in b ensures Merge(a, b)[h] == Merge(b, a)[h] { MergeBodyCommutes(a[h], b[h]); }
  }

  lemma MergeAssociates(a: Stats, b: Stats, c: Stats)
    ensures Merge(Merge(a, b), c) == Merge(a, Merge(b, c))
  {
    forall h | h in a && h in b && h in c
      ensures Merge(Merge(a, b), c)[h] == Merge(a, Merge(b, c))[h]
    {
      MergeBodyAssociates(a[h], b[h], c[h]);
    }
  }

  function MergeAll(maps: seq<Stats>): Stats {
    if maps == [] then map[] else Merge(MergeAll(maps[..|maps| - 1]), maps[|maps| - 1])
  }

  lemma OthersAndLast(maps: seq<Stats>, i: nat)
    requires i < |maps| - 1
    ensures var front := maps[..|maps| - 1];
      && front[i] == maps[i]
      && maps[..i] + maps[i + 1..] == front[..i] + front[i + 1..] + [maps[|maps| - 1]]
  {
  }

  lemma WithoutOne(a: seq<Stats>, b: seq<Stats>, i: nat)
    requires a != [] && multiset(a) == multiset(b) && i < |b| && b[i] == a[|a| - 1]
    ensures multiset(a[..|a| - 1]) == multiset(b[..i] + b[i + 1..])
  {
    assert a == a[..|a| - 1] + [a[|a| - 1]];
    assert b == b[..i] + [b[i]] + b[i + 1..];
    var front, rest := multiset(a[..|a| - 1]), multiset(b[..i] + b[i + 1..]);
    assert multiset(a) == front + multiset{b[i]} && multiset(b) == rest + multiset{b[i]};
    assert front == multiset(a) - multiset{b[i]} && rest == multiset(b) - multiset{b[i]};
  }

  /** Any one map may as well have been merged last. */
  lemma {:induction false} MergeLast(maps: seq<Stats>, i: nat)
    requires i < |maps|
    ensures MergeAll(maps) == Merge(MergeAll(maps[..i] + maps[i + 1..]), maps[i])
  {
    var n := |maps| - 1;
    if i == n {
      assert maps[..i] + maps[i + 1..] == maps[..n];
    } else {
      var others := maps[..n][..i] + maps[..n][i + 1..];
      MergeLast(maps[..n], i);
      OthersAndLast(maps, i);
      MergeAllOfPush(others, maps[n]);
      MergeSwaps(MergeAll(others), maps[i], maps[n]);
      assert MergeAll(maps) == Merge(MergeAll(maps[..n]), maps[n]);
    }
  }

  lemma MergeAllOfPush(maps: seq<Stats>, m: Stats)
    ensures MergeAll(maps + [m]) == Merge(MergeAll(maps), m)
  {
    assert (maps + [m])[..|maps|] == maps;
  }

  lemma MergeSwaps(m: Stats, a: Stats, b: Stats)
    ensures Merge(Merge(m, a), b) == Merge(Merge(m, b), a)
  {
    MergeAssociates(m, a, b);
    MergeCommutes(a, b);
    MergeAssociates(m, b, a);
  }

  /** Merging the maps of all threads gives the same statistics in every order. */
  lemma {:induction false} OrderDoesNotMatter(a: seq<Stats>, b: seq<Stats>)
    requires multiset(a) == multiset(b)
    ensures MergeAll(a) == MergeAll(b)
    decreases |a|
  {
    assert |a| == |multiset(a)| == |multiset(b)| == |b|;
    if a != [] {
      var last := a[|a| - 1];
      assert last in multiset(a) && last in multiset(b);
      var i :| 0 <= i < |b| && b[i] == last;
      WithoutOne(a, b, i);
      OrderDoesNotMatter(a[..|a| - 1], b[..i] + b[i + 1..]);
      MergeLast(b, i);
    }
  }

  /** The additive fields of a record. */
  datatype Field = Count | TimeoutCount | ExecCount | TotalRspTime | Interval(point: int)

  function Value(b: Body, f: Field): int {
    match f
    case Count => b.count
    case TimeoutCount => b.timeoutCount
    case ExecCount => b.execCount
    case TotalRspTime => b.totalRspTime
    case Interval(point) => CountAt(b.intervalCount, point)
  }

  function ValueAt(m: Stats, h: Head, f: Field): int {
    if h in m then Value(m[h], f) else 0
  }

  function SumOver(maps: seq<Stats>, h: Head, f: Field): int {
    if maps == [] then 0 else SumOver(maps[..|maps| - 1], h, f) + ValueAt(maps[|maps| - 1], h, f)
  }

  /** Conservation: the counts, the total time and the count of every interval are summed over all the maps. */
  lemma {:induction false} MergeSums(maps: seq<Stats>, h: Head, f: Field)
    ensures ValueAt(MergeAll(maps), h, f) == SumOver(maps, h, f)
  {
    if maps != [] { MergeSums(maps[..|maps| - 1], h, f); }
  }

  /** The times of a head lie between these two, each of which is one of them. */
  predicate Spans(maps: seq<Stats>, h: Head, least: int, most: int, shortest: nat, longest: nat) {
    && (forall i :: 0 <= i < |maps| && h in maps[i] ==>
          least <= maps[i][h].minRspTime && maps[i][h].maxRspTime <= most)
    && shortest < |maps| && h in maps[shortest] && maps[shortest][h].minRspTime == least
    && longest < |maps| && h in maps[longest] && maps[longest][h].maxRspTime == most
  }

  lemma SpansOneMore(maps: seq<Stats>, h: Head, least: int, most: int, shortest: nat, longest: nat)
    requires maps != [] && h in maps[|maps| - 1]
    requires Spans(maps[..|maps| - 1], h, least, most, shortest, longest)
    ensures var n := |maps| - 1;
      var m := maps[n][h];
      Spans(maps, h, if least < m.minRspTime then least else m.minRspTime,
            if most > m.maxRspTime then most else m.maxRspTime,
            if least < m.minRspTime then shortest else n, if most > m.maxRspTime then longest else n)
  {
    forall i | 0 <= i < |maps| - 1 ensures maps[i] == maps[..|maps| - 1][i] { }
  }

  lemma SpansAsBefore(maps: seq<Stats>, h: Head, least: int, most: int, shortest: nat, longest: nat)
    requires maps != [] && h !in maps[|maps| - 1]
    requires Spans(maps[..|maps| - 1], h, least, most, shortest, longest)
    ensures Spans(maps, h, least, most, shortest, longest)
  {
    forall i | 0 <= i < |maps| - 1 ensures maps[i] == maps[..|maps| - 1][i] { }
  }

  lemma SpansOnlyLast(maps: seq<Stats>, h: Head)
    requires maps != [] && h in maps[|maps| - 1] && h !in MergeAll(maps[..|maps| - 1])
    ensures var n := |maps| - 1;
      Spans(maps, h, maps[n][h].minRspTime, maps[n][h].maxRspTime, n, n)
  {
    var n := |maps| - 1;
    forall i | 0 <= i < n ensures h !in maps[i] { if h in maps[i] { InSome(maps[..n], i, h); } }
  }

  /** The merged record of a head holds the longest and the shortest of the times that its records report. */
  lemma {:induction false} MergeExtremes(maps: seq<Stats>, h: Head) returns (longest: nat, shortest: nat)
    requires h in MergeAll(maps)
    ensures Spans(maps, h, MergeAll(maps)[h].minRspTime, MergeAll(maps)[h].maxRspTime, shortest, longest)
  {
    var n := |maps| - 1;
    var all, last := MergeAll(maps[..n]), maps[n];
    longest, shortest := n, n;
    if h !in all {
      SpansOnlyLast(maps, h);
      return;
    }
    var a, b := MergeExtremes(maps[..n], h);
    ExtremesOfTwo(all, last, h);
    if h in last {
      SpansOneMore(maps, h, all[h].minRspTime, all[h].maxRspTime, b, a);
      longest := if all[h].maxRspTime > last[h].maxRspTime then a else n;
      shortest := if all[h].minRspTime < last[h].minRspTime then b else n;
    } else {
      SpansAsBefore(maps, h, all[h].minRspTime, all[h].maxRspTime, b, a);
      longest, shortest := a, b;
    }
  }

  lemma ExtremesOfTwo(a: Stats, b: Stats, h: Head)
    requires h in a
    ensures var m := Merge(a, b)[h];
      if h !in b then m == a[h]
      else
        && m.maxRspTime == (if a[h].maxRspTime > b[h].maxRspTime then a[h].maxRspTime else b[h].maxRspTime)
        && m.minRspTime == (if a[h].minRspTime < b[h].minRspTime then a[h].minRspTime else b[h].minRspTime)
  {
  }

  lemma {:induction false} InSome(maps: seq<Stats>, i: nat, h: Head)
    requires i < |maps| && h in maps[i]
    ensures h in MergeAll(maps)
  {
    if i < |maps| - 1 { InSome(maps[..|maps| - 1], i, h); }
  }

  // ---- two rules for the least response time

  /** Merging single calls: zero stands for "no sample yet", and the least sample is kept. */
  function MinOfSamples(a: int, b: int): int {
    if a == 0 || (a > b && b != 0) then b else a
  }

  /** addMicMsg takes the plain minimum, so it loses the least sample exactly when one of two records has none. */
  lemma PlainMinLosesSamples(a: Stats, b: Stats, h: Head)
    requires h in a && h in b && a[h].minRspTime >= 0 && b[h].minRspTime >= 0
    ensures Merge(a, b)[h].minRspTime != MinOfSamples(a[h].minRspTime, b[h].minRspTime)
      <==> (a[h].minRspTime == 0) != (b[h].minRspTime == 0)
  {
  }

  /** The response times that the maps report as least for one head. */
  function Samples(maps: seq<Stats>, h: Head): seq<int> {
    if maps == [] then []
    else
      var rest, m := Samples(maps[..|maps| - 1], h), maps[|maps| - 1];
      if h in m then rest + [m[h].minRspTime] else rest
  }

  /** Their least, zeros not counting; zero if there is no other. */
  function LeastSample(samples: seq<int>): int {
    if samples == [] then 0 else MinOfSamples(LeastSample(samples[..|samples| - 1]), samples[|samples| - 1])
  }

  /** Their plain minimum. */
  function PlainLeast(samples: seq<int>): int
    requires samples != []
  {
    var n := |samples| - 1;
    if n == 0 then samples[0] else Min(PlainLeast(samples[..n]), samples[n])
  }

  lemma {:induction false} MergeIsPlainLeast(maps: seq<Stats>, h: Head)
    ensures h in MergeAll(maps) <==> Samples(maps, h) != []
    ensures h in MergeAll(maps) ==> MergeAll(maps)[h].minRspTime == PlainLeast(Samples(maps, h))
  {
    if maps != [] {
      var rest, m := maps[..|maps| - 1], maps[|maps| - 1];
      MergeIsPlainLeast(rest, h);
      if h in m { assert (Samples(rest, h) + [m[h].minRspTime])[..|Samples(rest, h)|] == Samples(rest, h); }
    }
  }

  predicate NoneZero(samples: seq<int>) { forall i :: 0 <= i < |samples| ==> samples[i] != 0 }

  predicate AllZero(samples: seq<int>) { forall i :: 0 <= i < |samples| ==> samples[i] == 0 }

  lemma {:induction false} BothLeasts(samples: seq<int>)
    requires samples != [] && forall i :: 0 <= i < |samples| ==> samples[i] >= 0
    ensures PlainLeast(samples) >= 0 && (PlainLeast(samples) == 0 <==> !NoneZero(samples))
    ensures LeastSample(samples) >= 0 && (LeastSample(samples) == 0 <==> AllZero(samples))
    ensures NoneZero(samples) ==> LeastSample(samples) == PlainLeast(samples)
  {
    var n := |samples| - 1;
    assert samples == samples[..n] + [samples[n]];
    if n > 0 { BothLeasts(samples[..n]); }
  }

  /** Over any list of maps: the merged record of a head holds its least sample exactly if every map that has the head
      has a sample, or none has. */
  lemma MergeKeepsLeastSample(maps: seq<Stats>, h: Head)
    requires h in MergeAll(maps)
    requires forall i :: 0 <= i < |Samples(maps, h)| ==> Samples(maps, h)[i] >= 0
    ensures MergeAll(maps)[h].minRspTime == LeastSample(Samples(maps, h))
      <==> NoneZero(Samples(maps, h)) || AllZero(Samples(maps, h))
  {
    MergeIsPlainLeast(maps, h);
    BothLeasts(Samples(maps, h));
  }
}
