/**
 ObjectProxy: requests wait in its own queue until an adapter is selected and connected, then move to that adapter.
 Every request is at each moment in exactly one place, and finished once. Which adapter the endpoint manager
 selects, and the transport's answers, are inputs.
 */
module RequestLifecycle {
  import opened Collections
  import opened TimeoutQueue
  import opened Connection
  import opened RequestEffects
  import AdapterRequests

  /** A request in the object's queue; `adapterSet` tells whether an adapter was selected for it before. */
  datatype Waiting = Waiting(m: Msg, hash: bool, adapterSet: bool, deadline: int)

  /** What selectAdapterProxy says: the registry has not answered yet; no adapter; this adapter. */
  datatype Selection =
    | NoRegistry
    | NoAdapter
    | At(i: nat, connected: bool)

  /** `finished` logs what the object itself finished (doInvokeException, also where it drops the message);
      `submitted` holds every request ever given to invoke. */
  datatype System = System(queue: seq<Waiting>, adapters: seq<Adapter>, finished: seq<nat>, submitted: set<nat>)

  function Keys(queue: seq<Waiting>): (r: seq<nat>)
    ensures |r| == |queue| && forall i :: 0 <= i < |r| ==> r[i] == queue[i].m.key
  {
    seq(|queue|, i requires 0 <= i < |queue| => queue[i].m.key)
  }

  ghost predicate Given(adapters: seq<Adapter>, k: nat) {
    exists i :: 0 <= i < |adapters| && k in adapters[i].invoked
  }

  ghost predicate Separate(adapters: seq<Adapter>) {
    forall i, j, k :: 0 <= i < j < |adapters| && k in adapters[i].invoked ==> k !in adapters[j].invoked
  }

  /** Every submitted request waits, was finished here, or was given to one adapter, which keeps its own ledger. */
  ghost predicate Conserved(s: System) {
    && (forall i :: 0 <= i < |s.adapters| ==> Ledger(s.adapters[i]))
    && Separate(s.adapters) && NoRepeats(Keys(s.queue)) && NoRepeats(s.finished)
    && (forall k :: k in s.submitted <==> k in Keys(s.queue) || k in s.finished || Given(s.adapters, k))
    && (forall k :: k in Keys(s.queue) ==> k !in s.finished && !Given(s.adapters, k))
    && (forall k :: k in s.finished ==> !Given(s.adapters, k))
  }

  /** Spelled out for one request: where it is, it is alone. */
  lemma InOnePlace(s: System, k: nat, i: nat, j: nat)
    requires Conserved(s) && k in s.submitted && i < |s.adapters| && j < |s.adapters|
    ensures k in Keys(s.queue) || k in s.finished || Given(s.adapters, k)
    ensures k in s.adapters[i].invoked ==>
      && k !in Keys(s.queue) && k !in s.finished && (i != j ==> k !in s.adapters[j].invoked)
      && (k in Held(s.adapters[i].queue.data) || k in s.adapters[i].finished || k in s.adapters[i].lost)
      && (k in Held(s.adapters[i].queue.data) ==> k !in s.adapters[i].finished + s.adapters[i].lost)
      && (k in s.adapters[i].finished ==> k !in s.adapters[i].lost)
    ensures k in Keys(s.queue) ==> k !in s.finished && k !in s.adapters[i].invoked
    ensures k in Held(s.adapters[i].queue.data) || k in s.adapters[i].finished ==> k in s.adapters[i].invoked
  {
    if k in s.adapters[i].invoked { assert Given(s.adapters, k); }
  }

  // ---- moves

  lemma WaitingKeeps(s: System, w: Waiting)
    requires Conserved(s) && w.m.key !in s.submitted
    ensures Conserved(s.(queue := s.queue + [w], submitted := s.submitted + {w.m.key}))
  {
    assert Keys(s.queue + [w]) == Keys(s.queue) + [w.m.key];
    assert w.m.key !in Keys(s.queue);
  }

  lemma FinishingKeeps(s: System, k: nat)
    requires Conserved(s) && k !in s.submitted
    ensures Conserved(s.(finished := s.finished + [k], submitted := s.submitted + {k}))
  {
    assert k !in s.finished;
  }

  /** A request taken from the queue is in transit: as if not submitted yet. */
  lemma TakingKeeps(s: System, i: nat)
    requires Conserved(s) && i < |s.queue|
    ensures var k := s.queue[i].m.key;
      && k in s.submitted
      && Conserved(s.(queue := s.queue[..i] + s.queue[i + 1..], submitted := s.submitted - {k}))
  {
    var keys, k := Keys(s.queue), s.queue[i].m.key;
    var rest := Keys(s.queue[..i] + s.queue[i + 1..]);
    assert keys[i] == k && k in keys;
    assert rest == keys[..i] + keys[i + 1..];
    forall x ensures x in rest <==> x in keys && x != k { TakenOut(keys, i, x); }
  }

  lemma TakenOut(keys: seq<nat>, i: nat, x: nat)
    requires NoRepeats(keys) && i < |keys|
    ensures x in keys[..i] + keys[i + 1..] <==> x in keys && x != keys[i]
    ensures NoRepeats(keys[..i] + keys[i + 1..])
  {
    assert keys == keys[..i] + [keys[i]] + keys[i + 1..];
  }

  lemma GivenAfter(adapters: seq<Adapter>, i: nat, a: Adapter, k: nat, x: nat)
    requires i < |adapters| && a.invoked == adapters[i].invoked + [k]
    ensures Given(adapters[i := a], x) <==> Given(adapters, x) || x == k
  {
    var r := adapters[i := a];
    assert forall j :: 0 <= j < |adapters| ==> (x in r[j].invoked <==> x in adapters[j].invoked || (j == i && x == k));
    if Given(adapters, x) { var j :| 0 <= j < |adapters| && x in adapters[j].invoked; assert x in r[j].invoked; }
    if x == k { assert x in r[i].invoked; }
  }

  lemma {:induction false} InvokeLogs(a: Adapter, serial: bool, limit: nat, m: Msg, send: Send)
    ensures Invoke(a, serial, limit, m, send).invoked == a.invoked + [m.key]
  {
  }

  lemma GivingKeeps(s: System, serial: bool, limit: nat, i: nat, m: Msg, send: Send)
    requires Conserved(s) && m.key !in s.submitted && i < |s.adapters|
    ensures var a := Invoke(s.adapters[i], serial, limit, m, send);
      Conserved(s.(adapters := s.adapters[i := a], submitted := s.submitted + {m.key}))
  {
    assert !Given(s.adapters, m.key);
    assert forall j :: 0 <= j < |s.adapters| ==> m.key !in s.adapters[j].invoked;
    InvokeKeepsLedger(s.adapters[i], serial, limit, m, send);
    InvokeLogs(s.adapters[i], serial, limit, m, send);
    var a := Invoke(s.adapters[i], serial, limit, m, send);
    forall x ensures Given(s.adapters[i := a], x) <==> Given(s.adapters, x) || x == m.key {
      GivenAfter(s.adapters, i, a, m.key, x);
    }
  }

  /** An adapter that keeps its ledger and gets no new request. */
  lemma AdapterStepKeeps(s: System, i: nat, a: Adapter)
    requires Conserved(s) && i < |s.adapters| && Ledger(a) && a.invoked == s.adapters[i].invoked
    ensures Conserved(s.(adapters := s.adapters[i := a]))
  {
    var r := s.adapters[i := a];
    forall x ensures Given(r, x) <==> Given(s.adapters, x) {
      if Given(s.adapters, x) { var j :| 0 <= j < |r| && x in s.adapters[j].invoked; assert x in r[j].invoked; }
    }
  }

  // ---- a connection is there

  predicate InRange(answers: seq<(Selection, Send)>, count: nat) {
    forall k :: 0 <= k < |answers| && answers[k].0.At? ==> answers[k].0.i < count
  }

  datatype Round = Round(s: System, goOn: bool, at: nat)

  /** One round of prepareConnection: the oldest waiting request goes to the adapter at hand; a hashed request without
      an adapter first selects one, which then stays at hand. The loop ends when none is selected or the transport
      throws. */
  function OneRound(s: System, serial: bool, limit: nat, at: nat, selected: Selection, send: Send): (r: Round)
    requires s.queue != [] && at < |s.adapters| && (selected.At? ==> selected.i < |s.adapters|)
    ensures r.s.queue == s.queue[1..] && |r.s.adapters| == |s.adapters| && r.at < |s.adapters|
  {
    var w, rest := s.queue[0], s.(queue := s.queue[1..]);
    if w.hash && !w.adapterSet && !selected.At? then Round(rest.(finished := s.finished + [w.m.key]), false, at)
    else
      var i := if w.hash && !w.adapterSet then selected.i else at;
      var a := Invoke(s.adapters[i], serial, limit, w.m, send);
      Round(rest.(adapters := s.adapters[i := a]), |a.lost| == |s.adapters[i].lost|, i)
  }

  /** When the loop goes on: the request got an adapter, and its send did not throw. */
  lemma RoundGoesOn(s: System, serial: bool, limit: nat, at: nat, selected: Selection, send: Send)
    requires Conserved(s) && s.queue != [] && at < |s.adapters| && (selected.At? ==> selected.i < |s.adapters|)
    requires serial ==> !s.queue[0].m.oneWay
    ensures var w := s.queue[0];
      var needs, i := w.hash && !w.adapterSet, if w.hash && !w.adapterSet && selected.At? then selected.i else at;
      var r := OneRound(s, serial, limit, at, selected, send);
      && (r.goOn <==> (needs ==> selected.At?) && !(Fails(s.adapters[i], serial, limit, send) && send.Throws?))
      && (needs && !selected.At? ==> r.s.finished == s.finished + [w.m.key] && r.s.adapters == s.adapters)
      && (needs ==> selected.At? ==> r.s.finished == s.finished)
      && (forall j :: 0 <= j < |s.adapters| && j != i ==> r.s.adapters[j] == s.adapters[j])
  {
    var w := s.queue[0];
    var i := if w.hash && !w.adapterSet && selected.At? then selected.i else at;
    assert w.m.key == Keys(s.queue)[0];
    assert !Given(s.adapters, w.m.key);
    InvokeFinishes(s.adapters[i], serial, limit, w.m, send);
  }

  /** What prepareConnection does for a connected adapter `at`; `answers` are, request by request, the selection and the
      transport's answer. */
  function Prepared(s: System, serial: bool, limit: nat, at: nat, answers: seq<(Selection, Send)>): (r: System)
    requires at < |s.adapters| && |answers| == |s.queue| && InRange(answers, |s.adapters|)
    ensures |r.adapters| == |s.adapters|
    decreases |s.queue|
  {
    if s.queue == [] then s
    else
      var r := OneRound(s, serial, limit, at, answers[0].0, answers[0].1);
      if r.goOn then Prepared(r.s, serial, limit, r.at, answers[1..]) else r.s
  }

  /** Request k selects an adapter of its own. */
  predicate Picks(w: Waiting, selected: Selection) {
    w.hash && !w.adapterSet && selected.At?
  }

  /** The adapter at hand when request k has had its turn: the last one picked up to k, or the one that connected. */
  function LastPick(queue: seq<Waiting>, at: nat, answers: seq<(Selection, Send)>, k: nat): nat
    requires k < |queue| == |answers|
  {
    if Picks(queue[k], answers[k].0) then answers[k].0.i
    else if k == 0 then at
    else LastPick(queue, at, answers, k - 1)
  }

  /** The loop reaches round k and gives its request to an adapter. */
  predicate Gives(s: System, serial: bool, limit: nat, at: nat, answers: seq<(Selection, Send)>, k: nat)
    requires at < |s.adapters| && |answers| == |s.queue| && InRange(answers, |s.adapters|)
    decreases |s.queue|
  {
    && k < |s.queue|
    && var r := OneRound(s, serial, limit, at, answers[0].0, answers[0].1);
       if k == 0 then !(s.queue[0].hash && !s.queue[0].adapterSet && !answers[0].0.At?)
       else r.goOn && Gives(r.s, serial, limit, r.at, answers[1..], k - 1)
  }

  lemma {:induction false} LastPickOfRest(queue: seq<Waiting>, at: nat, answers: seq<(Selection, Send)>, k: nat)
    requires 0 < k < |queue| == |answers|
    ensures LastPick(queue, at, answers, k)
      == LastPick(queue[1..], LastPick(queue, at, answers, 0), answers[1..], k - 1)
  {
    if k > 1 { LastPickOfRest(queue, at, answers, k - 1); }
  }

  lemma RoundKeepsInvoked(s: System, serial: bool, limit: nat, at: nat, selected: Selection, send: Send, a: nat, x: nat)
    requires s.queue != [] && at < |s.adapters| && (selected.At? ==> selected.i < |s.adapters|)
    requires a < |s.adapters| && x in s.adapters[a].invoked
    ensures x in OneRound(s, serial, limit, at, selected, send).s.adapters[a].invoked
  {
    var w := s.queue[0];
    var i := if Picks(w, selected) then selected.i else at;
    InvokeLogs(s.adapters[i], serial, limit, w.m, send);
  }

  /** A request once given stays with its adapter. */
  lemma {:induction false} GivenStays(s: System, serial: bool, limit: nat, at: nat, answers: seq<(Selection, Send)>,
                                      a: nat, x: nat)
    requires at < |s.adapters| && |answers| == |s.queue| && InRange(answers, |s.adapters|)
    requires a < |s.adapters| && x in s.adapters[a].invoked
    ensures x in Prepared(s, serial, limit, at, answers).adapters[a].invoked
    decreases |s.queue|
  {
    if s.queue != [] {
      var r := OneRound(s, serial, limit, at, answers[0].0, answers[0].1);
      RoundKeepsInvoked(s, serial, limit, at, answers[0].0, answers[0].1, a, x);
      if r.goOn { GivenStays(r.s, serial, limit, r.at, answers[1..], a, x); }
    }
  }

  /** A request the loop gives away goes to the adapter at hand. */
  lemma {:induction false} GoesToLastPick(s: System, serial: bool, limit: nat, at: nat,
                                          answers: seq<(Selection, Send)>, k: nat)
    requires at < |s.adapters| && |answers| == |s.queue| && InRange(answers, |s.adapters|)
    requires Gives(s, serial, limit, at, answers, k)
    ensures var i := LastPick(s.queue, at, answers, k);
      i < |s.adapters| && s.queue[k].m.key in Prepared(s, serial, limit, at, answers).adapters[i].invoked
    decreases |s.queue|
  {
    var r := OneRound(s, serial, limit, at, answers[0].0, answers[0].1);
    var w := s.queue[0];
    if k == 0 {
      var i := LastPick(s.queue, at, answers, 0);
      InvokeLogs(s.adapters[i], serial, limit, w.m, answers[0].1);
      assert w.m.key in r.s.adapters[i].invoked;
      if r.goOn { GivenStays(r.s, serial, limit, r.at, answers[1..], i, w.m.key); }
    } else {
      assert r.at == LastPick(s.queue, at, answers, 0);
      LastPickOfRest(s.queue, at, answers, k);
      GoesToLastPick(r.s, serial, limit, r.at, answers[1..], k - 1);
    }
  }

  /** A request the loop does not give away waits on, or was finished because no adapter was selected for it. */
  lemma {:induction false} OthersWaitOrFail(s: System, serial: bool, limit: nat, at: nat,
                                            answers: seq<(Selection, Send)>, k: nat)
    requires at < |s.adapters| && |answers| == |s.queue| && InRange(answers, |s.adapters|)
    requires k < |s.queue| && !Gives(s, serial, limit, at, answers, k)
    ensures var r := Prepared(s, serial, limit, at, answers);
      s.queue[k].m.key in Keys(r.queue) || s.queue[k].m.key in r.finished
    decreases |s.queue|
  {
    var r := OneRound(s, serial, limit, at, answers[0].0, answers[0].1);
    if r.goOn && k > 0 {
      OthersWaitOrFail(r.s, serial, limit, r.at, answers[1..], k - 1);
    } else if k > 0 {
      assert Keys(r.s.queue)[k - 1] == s.queue[k].m.key;
    }
  }

  lemma RoundKeeps(s: System, serial: bool, limit: nat, at: nat, selected: Selection, send: Send)
    requires Conserved(s) && s.queue != [] && at < |s.adapters| && (selected.At? ==> selected.i < |s.adapters|)
    ensures Conserved(OneRound(s, serial, limit, at, selected, send).s)
  {
    var w := s.queue[0];
    TakingKeeps(s, 0);
    assert s.queue[..0] + s.queue[1..] == s.queue[1..];
    var taken := s.(queue := s.queue[1..], submitted := s.submitted - {w.m.key});
    assert taken.submitted + {w.m.key} == s.submitted;
    if w.hash && !w.adapterSet && !selected.At? {
      FinishingKeeps(taken, w.m.key);
    } else {
      GivingKeeps(taken, serial, limit, if Picks(w, selected) then selected.i else at, w.m, send);
    }
  }

  lemma {:induction false} PreparedKeeps(s: System, serial: bool, limit: nat, at: nat, answers: seq<(Selection, Send)>)
    requires Conserved(s) && at < |s.adapters| && |answers| == |s.queue| && InRange(answers, |s.adapters|)
    ensures Conserved(Prepared(s, serial, limit, at, answers))
    decreases |s.queue|
  {
    if s.queue != [] {
      var r := OneRound(s, serial, limit, at, answers[0].0, answers[0].1);
      RoundKeeps(s, serial, limit, at, answers[0].0, answers[0].1);
      if r.goOn { PreparedKeeps(r.s, serial, limit, r.at, answers[1..]); }
    }
  }

  lemma OneAdapter(adapters: seq<Adapter>, i: nat, j: nat, x: nat)
    requires Separate(adapters) && i < |adapters| && j < |adapters|
    requires x in adapters[i].invoked && x in adapters[j].invoked
    ensures i == j
  {
  }

  /** Which requests go to which adapter: request k goes to adapter a exactly if the loop gives it away and a is the
      adapter at hand then. So it goes to the adapter that connected exactly if no other was picked last. */
  lemma GoesExactlyToLastPick(s: System, serial: bool, limit: nat, at: nat, answers: seq<(Selection, Send)>,
                              k: nat, a: nat)
    requires Conserved(s) && at < |s.adapters| && |answers| == |s.queue| && InRange(answers, |s.adapters|)
    requires k < |s.queue| && a < |s.adapters|
    ensures s.queue[k].m.key in Prepared(s, serial, limit, at, answers).adapters[a].invoked
      <==> Gives(s, serial, limit, at, answers, k) && a == LastPick(s.queue, at, answers, k)
  {
    var r, x := Prepared(s, serial, limit, at, answers), s.queue[k].m.key;
    PreparedKeeps(s, serial, limit, at, answers);
    if Gives(s, serial, limit, at, answers, k) {
      GoesToLastPick(s, serial, limit, at, answers, k);
      var i := LastPick(s.queue, at, answers, k);
      if x in r.adapters[a].invoked { OneAdapter(r.adapters, a, i, x); }
    } else {
      OthersWaitOrFail(s, serial, limit, at, answers, k);
      assert x in r.adapters[a].invoked ==> Given(r.adapters, x);
    }
  }

  /** A queue where that is another one: the second request needs no hashing, yet goes to the adapter selected for the
      first instead of the one that connected. */
  lemma LaterRequestsFollow(first: Msg, second: Msg, limit: nat)
    requires first.key != second.key && !first.oneWay && !second.oneWay && !first.fromRpc && !second.fromRpc
    ensures var queue := [Waiting(first, true, false, 0), Waiting(second, false, true, 0)];
      var answers := [(At(1, true), Ok), (NoAdapter, Ok)];
      var r := Prepared(System(queue, [FRESH, FRESH], [], {}), false, limit, 0, answers);
      r.queue == [] && r.adapters[0] == FRESH && r.adapters[1].invoked == [first.key, second.key]
  {
    var w1, w2 := Waiting(first, true, false, 0), Waiting(second, false, true, 0);
    var a1 := Invoke(FRESH, false, limit, first, Ok);
    var a2 := Invoke(a1, false, limit, second, Ok);
    var x1, x2: (Selection, Send) := (At(1, true), Ok), (NoAdapter, Ok);
    assert [x1, x2][1..] == [x2] && [w1, w2][1..] == [w2];
    var s1 := System([w2], [FRESH, a1], [], {});
    assert [FRESH, FRESH][1 := a1] == [FRESH, a1] && [FRESH, a1][1 := a2] == [FRESH, a2];
    assert [w2][1..] == [];
    assert Prepared(s1, false, limit, 1, [x2]) == System([], [FRESH, a2], [], {});
  }

  // ---- the object

  /** Nothing in the queue is due. */
  predicate NoneDue(queue: seq<Waiting>, now: int) {
    forall i :: 0 <= i < |queue| ==> queue[i].deadline > now
  }

  /** By its own deadline no message of the adapter is due. */
  ghost predicate NoneDueIn(a: Adapter, now: int) {
    forall id :: id in a.queue.data ==> a.queue.data[id].msg.deadline > now
  }

  ghost predicate AllFiled(adapters: seq<Adapter>) {
    forall i :: 0 <= i < |adapters| ==> Filed(adapters[i])
  }

  /** An adapter after its timeouts: exactly the messages past their own deadlines are out, each finished once. */
  ghost predicate TimedOut(r: Adapter, a: Adapter, now: int) {
    exists ids: seq<nat> :: r == AdapterRequests.ExpireAll(a, ids) && AreDue(a, ids, now)
  }

  /** These are the messages past their deadlines, each once. */
  ghost predicate AreDue(a: Adapter, ids: seq<nat>, now: int) {
    && NoRepeats(ids)
    && forall id :: id in ids <==> id in a.queue.data && a.queue.data[id].msg.deadline <= now
  }

  lemma TimingOutKeeps(r: Adapter, a: Adapter, now: int)
    requires Ledger(a) && Filed(a) && TimedOut(r, a, now)
    ensures Ledger(r) && Filed(r) && r.invoked == a.invoked
    ensures AdapterRequests.OnlyLater(r.queue.data, a.queue.data, now) && NoneDueIn(r, now)
  {
    var ids: seq<nat> :| r == AdapterRequests.ExpireAll(a, ids) && AreDue(a, ids, now);
    forall i | 0 <= i < |ids| ensures ids[i] in a.queue.data { assert ids[i] in ids; }
    AdapterRequests.ExpiredAreFinished(a, ids);
    AdapterRequests.ExpiringKeepsLedger(a, ids);
    AdapterRequests.ExpiringKeepsFiled(a, ids);
  }

  /** The waiting requests that are not due, in order. */
  function Later(queue: seq<Waiting>, now: int): seq<Waiting> {
    if queue == [] then []
    else Later(queue[..|queue| - 1], now) +
         if queue[|queue| - 1].deadline > now then [queue[|queue| - 1]] else []
  }

  lemma {:induction false} LaterHas(queue: seq<Waiting>, now: int, w: Waiting)
    ensures w in Later(queue, now) <==> w in queue && w.deadline > now
  {
    if queue != [] {
      LaterHas(queue[..|queue| - 1], now, w);
      assert queue == queue[..|queue| - 1] + [queue[|queue| - 1]];
    }
  }

  lemma {:induction false} LaterOfConcat(a: seq<Waiting>, b: seq<Waiting>, now: int)
    ensures Later(a + b, now) == Later(a, now) + Later(b, now)
  {
    if b == [] {
      assert a + b == a;
    } else {
      var n := |b| - 1;
      LaterOfConcat(a, b[..n], now);
      assert (a + b)[..|a + b| - 1] == a + b[..n];
    }
  }

  lemma TakingOneDue(queue: seq<Waiting>, k: nat, now: int)
    requires k < |queue| && queue[k].deadline <= now
    ensures Later(queue[..k] + queue[k + 1..], now) == Later(queue, now)
  {
    var a, b := queue[..k], queue[k + 1..];
    assert queue[..k + 1] == a + [queue[k]] && queue == queue[..k + 1] + b;
    LaterOfConcat(queue[..k + 1], b, now);
    LaterOfConcat(a, b, now);
    assert queue[..k + 1][..k] == a;
  }

  lemma {:induction false} AllLater(queue: seq<Waiting>, now: int)
    requires NoneDue(queue, now)
    ensures Later(queue, now) == queue
  {
    if queue != [] {
      AllLater(queue[..|queue| - 1], now);
      assert queue == queue[..|queue| - 1] + [queue[|queue| - 1]];
    }
  }

  /** Of the requests `all` these are gone, all of them due and earliest deadline first, and these are left. */
  ghost predicate GoneFrom(all: seq<Waiting>, gone: seq<Waiting>, left: seq<Waiting>, now: int) {
    && Later(left, now) == Later(all, now)
    && (forall w :: w in all && w.deadline <= now <==> w in gone || (w in left && w.deadline <= now))
    && ByDeadline(gone)
    && forall v, w :: v in gone && w in left ==> v.deadline <= w.deadline
  }

  lemma OneMoreGone(all: seq<Waiting>, gone: seq<Waiting>, left: seq<Waiting>, now: int, k: nat)
    requires GoneFrom(all, gone, left, now) && k < |left| && left[k].deadline <= now
    requires forall w :: w in left ==> left[k].deadline <= w.deadline
    ensures GoneFrom(all, gone + [left[k]], left[..k] + left[k + 1..], now)
    ensures Keys(gone + [left[k]]) == Keys(gone) + [left[k].m.key]
  {
    TakingOneDue(left, k, now);
    assert left == left[..k] + [left[k]] + left[k + 1..];
    assert forall i :: 0 <= i < |gone| ==> gone[i] in gone;
  }

  lemma AllGone(all: seq<Waiting>, gone: seq<Waiting>, left: seq<Waiting>, now: int)
    requires GoneFrom(all, gone, left, now) && NoneDue(left, now)
    ensures left == Later(all, now) && ByDeadline(gone)
    ensures forall w :: w in gone <==> w in all && w.deadline <= now
  {
    AllLater(left, now);
  }

  /** These requests, earliest deadline first. */
  ghost predicate ByDeadline(gone: seq<Waiting>) {
    forall i, j :: 0 <= i < j < |gone| ==> gone[i].deadline <= gone[j].deadline
  }

  /** Which waiting request times out next. */
  method DueFirst(queue: seq<Waiting>) returns (k: nat)
    requires queue != []
    ensures k < |queue| && forall w :: w in queue ==> queue[k].deadline <= w.deadline
  {
    k := 0;
    for i := 1 to |queue|
      invariant k < |queue| && forall j :: 0 <= j < i ==> queue[k].deadline <= queue[j].deadline
    {
      if queue[i].deadline < queue[k].deadline { k := i; }
    }
  }

  method AnyDue(data: map<nat, Entry<Msg>>, now: int) returns (found: bool, id: nat)
    ensures found ==> id in data && data[id].deadline <= now
    ensures !found ==> forall j :: j in data ==> data[j].deadline > now
  {
    var due := set j | j in data && data[j].deadline <= now;
    found, id := due != {}, 0;
    if found {
      id :| id in due;
    } else {
      forall j | j in data ensures data[j].deadline > now { assert j !in due; }
    }
  }

  /** An adapter's doTimeout, on its value: messages expire as module AdapterRequests has them expire on the object. */
  method TimeOut(a: Adapter, now: int) returns (r: Adapter)
    requires Ledger(a) && Filed(a)
    ensures TimedOut(r, a, now)
  {
    ghost var ids := [];
    r := a;
    var found, id := AnyDue(r.queue.data, now);
    while found
      invariant r == AdapterRequests.ExpireAll(a, ids) && DueSoFar(r, a, ids, now)
      invariant found ==> id in r.queue.data && r.queue.data[id].deadline <= now
      invariant !found ==> forall j :: j in r.queue.data ==> r.queue.data[j].deadline > now
      decreases |r.queue.data|
    {
      AdapterRequests.Fewer(r.queue.data, id);
      AdapterRequests.ExpireOneMore(a, ids, id);
      OneMoreDue(r, a, ids, now, id);
      r := Expire(r, id);
      ids := ids + [id];
      found, id := AnyDue(r.queue.data, now);
    }
    assert AreDue(a, ids, now);
  }

  /** These messages were due and are gone, the others are as they were. */
  ghost predicate DueSoFar(r: Adapter, a: Adapter, ids: seq<nat>, now: int) {
    && NoRepeats(ids)
    && (forall i :: i in ids ==> i in a.queue.data && a.queue.data[i].msg.deadline <= now)
    && (forall i :: i in r.queue.data <==> i in a.queue.data && i !in ids)
    && (forall i :: i in r.queue.data ==> r.queue.data[i] == a.queue.data[i])
  }

  lemma OneMoreDue(r: Adapter, a: Adapter, ids: seq<nat>, now: int, id: nat)
    requires Filed(a) && DueSoFar(r, a, ids, now) && id in r.queue.data && r.queue.data[id].deadline <= now
    ensures DueSoFar(Expire(r, id), a, ids + [id], now)
  {
  }

  class ObjectProxy {
    const serial: bool
    const noSendQueueLimit: nat
    const connectTimeout: int
    var hasInitialize: bool
    var reqTimeoutQueue: seq<Waiting>
    var adapters: seq<Adapter>
    var finished: seq<nat>
    ghost var submitted: set<nat>

    ghost function View(): System
      reads this
    {
      System(reqTimeoutQueue, adapters, finished, submitted)
    }

    ghost predicate Valid()
      reads this
    {
      Conserved(View()) && AllFiled(adapters)
    }

    constructor (isSerial: bool, limit: nat, timeout: int, count: nat)
      ensures Valid() && View() == System([], seq(count, _ => FRESH), [], {})
      ensures serial == isSerial && noSendQueueLimit == limit && connectTimeout == timeout && !hasInitialize
    {
      hasInitialize := false;
      serial, noSendQueueLimit, connectTimeout := isSerial, limit, timeout;
      reqTimeoutQueue, adapters, finished, submitted := [], seq(count, _ => FRESH), [], {};
    }

    method Initialize()
      modifies this`hasInitialize
      ensures hasInitialize
    {
      hasInitialize := true;
    }

    method Give(i: nat, m: Msg, send: Send)
      requires Valid() && m.key !in submitted && i < |adapters|
      modifies this`adapters, this`submitted
      ensures Valid() && submitted == old(submitted) + {m.key}
      ensures adapters == old(adapters)[i := Connection.Invoke(old(adapters)[i], serial, noSendQueueLimit, m, send)]
    {
      GivingKeeps(View(), serial, noSendQueueLimit, i, m, send);
      InvokeKeepsFiled(adapters[i], serial, noSendQueueLimit, m, send);
      adapters := adapters[i := Connection.Invoke(adapters[i], serial, noSendQueueLimit, m, send)];
      submitted := submitted + {m.key};
    }

    method DoInvokeException(k: nat)
      requires Valid() && k !in submitted
      modifies this`finished, this`submitted
      ensures Valid() && finished == old(finished) + [k] && submitted == old(submitted) + {k}
    {
      FinishingKeeps(View(), k);
      finished := finished + [k];
      submitted := submitted + {k};
    }

    /** Without a registry answer or a connection the request waits: until its own deadline, or only until the connect
        timeout. `beginTime` is when the call started. */
    method Invoke(m: Msg, hash: bool, beginTime: int, selected: Selection, send: Send)
      requires Valid() && m.key !in submitted
      requires selected.At? ==> selected.i < |adapters|
      modifies this`adapters, this`reqTimeoutQueue, this`finished, this`submitted
      ensures Valid() && submitted == old(submitted) + {m.key}
      ensures selected.NoRegistry? ==>
        reqTimeoutQueue == old(reqTimeoutQueue) + [Waiting(m, hash, false, m.deadline)]
      ensures selected.At? && !selected.connected ==>
        reqTimeoutQueue == old(reqTimeoutQueue) + [Waiting(m, hash, true, connectTimeout + beginTime)]
      ensures selected.NoAdapter? || (selected.At? && selected.connected) ==> reqTimeoutQueue == old(reqTimeoutQueue)
      ensures finished == old(finished) + if selected.NoAdapter? then [m.key] else []
      ensures adapters == if selected.At? && selected.connected
        then old(adapters)[selected.i :=
               Connection.Invoke(old(adapters)[selected.i], serial, noSendQueueLimit, m, send)]
        else old(adapters)
    {
      match selected {
        case NoRegistry => Wait(Waiting(m, hash, false, m.deadline));
        case NoAdapter => DoInvokeException(m.key);
        case At(i, connected) =>
          if connected {
            Give(i, m, send);
          } else {
            Wait(Waiting(m, hash, true, connectTimeout + beginTime));
          }
      }
    }

    method Wait(w: Waiting)
      requires Valid() && w.m.key !in submitted
      modifies this`reqTimeoutQueue, this`submitted
      ensures Valid() && submitted == old(submitted) + {w.m.key} && reqTimeoutQueue == old(reqTimeoutQueue) + [w]
    {
      WaitingKeeps(View(), w);
      reqTimeoutQueue := reqTimeoutQueue + [w];
      submitted := submitted + {w.m.key};
    }

    method Take(i: nat) returns (w: Waiting)
      requires Valid() && i < |reqTimeoutQueue|
      modifies this`reqTimeoutQueue, this`submitted
      ensures Valid() && w == old(reqTimeoutQueue)[i]
      ensures w.m.key in old(submitted) && submitted == old(submitted) - {w.m.key}
      ensures reqTimeoutQueue == old(reqTimeoutQueue)[..i] + old(reqTimeoutQueue)[i + 1..]
    {
      TakingKeeps(View(), i);
      w := reqTimeoutQueue[i];
      reqTimeoutQueue := reqTimeoutQueue[..i] + reqTimeoutQueue[i + 1..];
      submitted := submitted - {w.m.key};
    }

    method GiveOldest(i: nat, send: Send) returns (goOn: bool)
      requires Valid() && reqTimeoutQueue != [] && i < |adapters|
      modifies this`adapters, this`reqTimeoutQueue, this`submitted
      ensures Valid() && submitted == old(submitted) && finished == old(finished)
      ensures reqTimeoutQueue == old(reqTimeoutQueue)[1..]
      ensures adapters == old(adapters)[i :=
                Connection.Invoke(old(adapters)[i], serial, noSendQueueLimit, old(reqTimeoutQueue)[0].m, send)]
      ensures goOn <==> |adapters[i].lost| == |old(adapters)[i].lost|
    {
      var w := Take(0);
      var lost := |adapters[i].lost|;
      Give(i, w.m, send);
      goOn := |adapters[i].lost| == lost;
    }

    method FailOldest()
      requires Valid() && reqTimeoutQueue != []
      modifies this`reqTimeoutQueue, this`finished, this`submitted
      ensures Valid() && submitted == old(submitted)
      ensures reqTimeoutQueue == old(reqTimeoutQueue)[1..]
      ensures finished == old(finished) + [old(reqTimeoutQueue)[0].m.key]
    {
      var w := Take(0);
      DoInvokeException(w.m.key);
    }

    method PrepareOne(current: nat, selected: Selection, send: Send) returns (goOn: bool, next: nat)
      requires Valid() && reqTimeoutQueue != [] && current < |adapters|
      requires selected.At? ==> selected.i < |adapters|
      modifies this`adapters, this`reqTimeoutQueue, this`finished, this`submitted
      ensures Valid()
      ensures Round(View(), goOn, next)
        == OneRound(old(View()), serial, noSendQueueLimit, current, selected, send)
    {
      next := current;
      var w := reqTimeoutQueue[0];
      if w.hash && !w.adapterSet {
        if !selected.At? {
          FailOldest();
          return false, current;
        }
        next := selected.i;
      }
      goOn := GiveOldest(next, send);
    }

    /** The waiting requests, oldest first, move on. The loop ends early when no adapter is selected for a hashed one,
        or when the transport throws; the requests behind keep waiting. */
    method PrepareConnection(i: nat, answers: seq<(Selection, Send)>)
      requires Valid() && i < |adapters| && |answers| == |reqTimeoutQueue| && InRange(answers, |adapters|)
      modifies this`adapters, this`reqTimeoutQueue, this`finished, this`submitted
      ensures Valid() && View() == Prepared(old(View()), serial, noSendQueueLimit, i, answers)
    {
      var at: nat, goOn, k := i, true, 0;
      ghost var result := Prepared(View(), serial, noSendQueueLimit, i, answers);
      while goOn && |reqTimeoutQueue| > 0
        invariant Valid() && k + |reqTimeoutQueue| == |answers| && at < |adapters| && InRange(answers, |adapters|)
        invariant goOn ==> Prepared(View(), serial, noSendQueueLimit, at, answers[k..]) == result
        invariant !goOn ==> View() == result
        decreases |reqTimeoutQueue|
      {
        assert answers[k..][1..] == answers[k + 1..] && answers[k..][0] == answers[k];
        goOn, at := PrepareOne(at, answers[k].0, answers[k].1);
        k := k + 1;
      }
    }

    method TimeoutAdapters(now: int)
      requires Valid()
      modifies this`adapters
      ensures Valid() && |adapters| == |old(adapters)|
      ensures forall i :: 0 <= i < |adapters| ==> TimedOut(adapters[i], old(adapters)[i], now)
    {
      for i := 0 to |adapters|
        invariant Valid() && |adapters| == |old(adapters)|
        invariant forall j :: 0 <= j < i ==> TimedOut(adapters[j], old(adapters)[j], now)
        invariant forall j :: i <= j < |adapters| ==> adapters[j] == old(adapters)[j]
      {
        var r := TimeOut(adapters[i], now);
        TimingOutKeeps(r, adapters[i], now);
        AdapterStepKeeps(View(), i, r);
        adapters := adapters[i := r];
      }
    }

    /** Adapters first, then the requests that wait, earliest deadline first: exactly what is past its deadline is out
        of its queue and finished, the rest waits on as it did. */
    method DoTimeout(now: int) returns (ghost gone: seq<Waiting>)
      requires Valid()
      modifies this`adapters, this`reqTimeoutQueue, this`finished, this`submitted
      ensures Valid() && submitted == old(submitted) && |adapters| == |old(adapters)|
      ensures !hasInitialize ==> unchanged(this)
      ensures hasInitialize ==> forall i :: 0 <= i < |adapters| ==> TimedOut(adapters[i], old(adapters)[i], now)
      ensures hasInitialize ==> forall i :: 0 <= i < |adapters| ==> NoneDueIn(adapters[i], now)
      ensures hasInitialize ==> NoneDue(reqTimeoutQueue, now) && reqTimeoutQueue == Later(old(reqTimeoutQueue), now)
      ensures hasInitialize ==> finished == old(finished) + Keys(gone)
      ensures hasInitialize ==>
        ByDeadline(gone) && forall w :: w in gone <==> w in old(reqTimeoutQueue) && w.deadline <= now
    {
      gone := [];
      if !hasInitialize { return; }
      TimeoutAdapters(now);
      forall i | 0 <= i < |adapters| ensures NoneDueIn(adapters[i], now) {
        TimingOutKeeps(adapters[i], old(adapters)[i], now);
      }
      gone := TimeoutWaiting(now);
    }

    method TimeoutWaiting(now: int) returns (ghost gone: seq<Waiting>)
      requires Valid()
      modifies this`reqTimeoutQueue, this`finished, this`submitted
      ensures Valid() && submitted == old(submitted)
      ensures NoneDue(reqTimeoutQueue, now) && reqTimeoutQueue == Later(old(reqTimeoutQueue), now)
      ensures finished == old(finished) + Keys(gone)
      ensures ByDeadline(gone) && forall w :: w in gone <==> w in old(reqTimeoutQueue) && w.deadline <= now
    {
      gone := [];
      ghost var all := reqTimeoutQueue;
      var more := true;
      while more
        invariant Valid() && submitted == old(submitted) && finished == old(finished) + Keys(gone)
        invariant GoneFrom(all, gone, reqTimeoutQueue, now) && (!more ==> NoneDue(reqTimeoutQueue, now))
        decreases |reqTimeoutQueue| + if more then 1 else 0
      {
        ghost var left, k := reqTimeoutQueue, 0;
        more, k := TimeoutOldest(now);
        if more {
          OneMoreGone(all, gone, left, now, k);
          gone := gone + [left[k]];
        }
      }
      AllGone(all, gone, reqTimeoutQueue, now);
    }

    /** The waiting request whose deadline is earliest fails if it is due. */
    method TimeoutOldest(now: int) returns (more: bool, ghost k: nat)
      requires Valid()
      modifies this`reqTimeoutQueue, this`finished, this`submitted
      ensures Valid() && submitted == old(submitted)
      ensures more ==> k < |old(reqTimeoutQueue)| && old(reqTimeoutQueue)[k].deadline <= now
      ensures more ==> forall w :: w in old(reqTimeoutQueue) ==> old(reqTimeoutQueue)[k].deadline <= w.deadline
      ensures more ==> reqTimeoutQueue == old(reqTimeoutQueue)[..k] + old(reqTimeoutQueue)[k + 1..]
      ensures more ==> finished == old(finished) + [old(reqTimeoutQueue)[k].m.key]
      ensures !more ==> View() == old(View()) && NoneDue(reqTimeoutQueue, now)
    {
      k := 0;
      if |reqTimeoutQueue| == 0 { return false, k; }
      var first := DueFirst(reqTimeoutQueue);
      if reqTimeoutQueue[first].deadline > now { return false, k; }
      k := first;
      var w := Take(first);
      DoInvokeException(w.m.key);
      more := true;
    }

    /** A reply, a send, a close at one adapter. */
    method AdapterStep(i: nat, step: Step)
      requires Valid() && i < |adapters| && Enabled(adapters[i], serial, step) && !step.DoesInvoke?
      modifies this`adapters
      ensures Valid() && adapters == old(adapters)[i := Do(old(adapters)[i], serial, noSendQueueLimit, step)]
    {
      StepKeepsLedger(adapters[i], serial, noSendQueueLimit, step);
      StepKeepsFiled(adapters[i], serial, noSendQueueLimit, step);
      StepInvokesNothing(adapters[i], serial, noSendQueueLimit, step);
      AdapterStepKeeps(View(), i, Do(adapters[i], serial, noSendQueueLimit, step));
      adapters := adapters[i := Do(adapters[i], serial, noSendQueueLimit, step)];
    }
  }

  lemma StepInvokesNothing(a: Adapter, serial: bool, limit: nat, step: Step)
    requires Ledger(a) && Enabled(a, serial, step) && !step.DoesInvoke?
    ensures Do(a, serial, limit, step).invoked == a.invoked
  {
    if step.Flushes? && !serial { FlushLosesNothing(a, step.sends); }
  }

  ghost predicate Queued(s: System, k: nat) {
    k in Keys(s.queue) || exists i :: 0 <= i < |s.adapters| && k in Held(s.adapters[i].queue.data)
  }

  ghost predicate Over(s: System, k: nat) {
    || k in s.finished
    || exists i :: 0 <= i < |s.adapters| && k in s.adapters[i].finished + s.adapters[i].lost
  }

  /** A submitted request is either queued somewhere or over; so one that a timeout took out of its queue is over. */
  lemma QueuedOrOver(s: System, k: nat)
    requires Conserved(s) && k in s.submitted
    ensures Queued(s, k) <==> !Over(s, k)
  {
    if Given(s.adapters, k) {
      var i :| 0 <= i < |s.adapters| && k in s.adapters[i].invoked;
      InOnePlace(s, k, i, i);
      forall j | 0 <= j < |s.adapters| && j != i
        ensures k !in Held(s.adapters[j].queue.data) && k !in s.adapters[j].finished + s.adapters[j].lost
      {
        InOnePlace(s, k, i, j);
      }
      assert k in Held(s.adapters[i].queue.data) || k in s.adapters[i].finished + s.adapters[i].lost;
    } else {
      forall j | 0 <= j < |s.adapters|
        ensures k !in Held(s.adapters[j].queue.data) && k !in s.adapters[j].finished + s.adapters[j].lost
      {
        assert k !in s.adapters[j].invoked;
      }
    }
  }
}
