/**
 What each step of an adapter does to the queue and the logs, told from the state before it: which request is sent,
 which waits, which is finished, and that nothing else changes.
 */
module RequestEffects {
  import opened Collections
  import opened TimeoutQueue
  import opened Connection
  import opened NoOvertaking

  // ---- invoke

  /** The unsent list is too long for one more. */
  predicate Refused(a: Adapter, limit: nat) {
    |a.queue.send| > limit
  }

  /** Nothing is ahead of a new request, so it goes to the transport at once. */
  predicate IsNext(a: Adapter, serial: bool) {
    a.queue.send == [] && (serial ==> a.request.None?)
  }

  /** The transport is asked, and takes it. */
  predicate Taken(a: Adapter, serial: bool, limit: nat, send: Send) {
    !Refused(a, limit) && IsNext(a, serial) && (send.Ok? || send.Full?)
  }

  /** The transport is asked, and the connection fails. */
  predicate Fails(a: Adapter, serial: bool, limit: nat, send: Send) {
    !Refused(a, limit) && IsNext(a, serial) && (send.Error? || send.Throws?)
  }

  /** The id a request goes under. Serial mode generates one in any case, so for a request that comes without one the
      generator runs twice. */
  function IdFor(a: Adapter, serial: bool, m: Msg): nat {
    if m.fromRpc then if serial then NextId(a.uniqId) else m.requestId
    else if serial then NextId(NextId(a.uniqId))
    else NextId(a.uniqId)
  }

  /** The request stays in the queue, sent or unsent. */
  predicate Stays(a: Adapter, serial: bool, limit: nat, m: Msg, send: Send) {
    && !Refused(a, limit) && !Fails(a, serial, limit, send) && !(Taken(a, serial, limit, send) && m.oneWay)
    && IdFor(a, serial, m) !in a.queue.data
  }

  /** A request is sent exactly if it is not refused, nothing is ahead of it and the transport takes it. */
  lemma InvokeSends(a: Adapter, serial: bool, limit: nat, m: Msg, send: Send)
    requires ValidQueue(a.queue) && Enabled(a, serial, DoesInvoke(m, send))
    ensures var r := Do(a, serial, limit, DoesInvoke(m, send));
      && r.invoked == a.invoked + [m.key]
      && r.accepted == a.accepted + (if Taken(a, serial, limit, send) then [m.key] else [])
      && r.wire == (if Taken(a, serial, limit, send) then a.wire + [m.key]
                    else if Fails(a, serial, limit, send) then [] else a.wire)
      && r.uniqId == (if Refused(a, limit) || (!serial && m.fromRpc) then a.uniqId else IdFor(a, serial, m))
      && r.request == (if serial && Taken(a, serial, limit, send) && Stays(a, serial, limit, m, send)
                       then Some(m.(requestId := IdFor(a, serial, m))) else a.request)
  {
  }

  /** It stays in the queue, under its id and its own deadline, exactly if it is neither refused nor one-way and sent,
      the connection did not fail and the id is free; otherwise the queue is as it was. */
  lemma InvokeQueues(a: Adapter, serial: bool, limit: nat, m: Msg, send: Send)
    requires ValidQueue(a.queue) && Enabled(a, serial, DoesInvoke(m, send))
    ensures var r, id := Do(a, serial, limit, DoesInvoke(m, send)), IdFor(a, serial, m);
      if Stays(a, serial, limit, m, send) then
        && id in r.queue.data && r.queue.data - {id} == a.queue.data
        && r.queue.data[id] == Entry(m.(requestId := id), Taken(a, serial, limit, send), m.deadline)
        && r.queue.send == a.queue.send + if Taken(a, serial, limit, send) then [] else [id]
      else r.queue == a.queue
  {
  }

  /** It is over at once exactly if it does not stay: lost if the transport threw, else finished. */
  lemma InvokeFinishes(a: Adapter, serial: bool, limit: nat, m: Msg, send: Send)
    requires ValidQueue(a.queue) && Enabled(a, serial, DoesInvoke(m, send))
    ensures var r := Do(a, serial, limit, DoesInvoke(m, send));
      var threw := Fails(a, serial, limit, send) && send.Throws?;
      && r.lost == a.lost + (if threw then [m.key] else [])
      && r.finished == a.finished + if Stays(a, serial, limit, m, send) || threw then [] else [m.key]
  {
  }

  // ---- answers, timeouts, closed connections

  /** A reply in parallel mode finishes exactly the request it names, whatever else is queued; one that names none, or
      carries the id zero of a pushed message, changes nothing. */
  lemma AnswerFinishesItsRequest(a: Adapter, limit: nat, id: nat)
    requires Ledger(a)
    ensures var r := Do(a, false, limit, Answers(id));
      if id != 0 && id in a.queue.data then
        && r.finished == a.finished + [a.queue.data[id].msg.key]
        && r.queue.data == a.queue.data - {id} && (forall x :: x in r.queue.send <==> x in a.queue.send && x != id)
        && r.wire == a.wire && r.request == a.request && r.accepted == a.accepted && r.lost == a.lost
        && r.invoked == a.invoked && r.uniqId == a.uniqId
      else r == a
  {
    WithoutHas(a.queue.send, id);
  }

  /** A timeout finishes exactly its message; the connection is closed if that was the request of serial mode, and only
      then. */
  lemma TimeoutFinishesItsRequest(a: Adapter, serial: bool, limit: nat, id: nat)
    requires Ledger(a) && id in a.queue.data
    ensures var r, isRequest := Do(a, serial, limit, Expires(id)), a.request == Some(a.queue.data[id].msg);
      && r.finished == a.finished + [a.queue.data[id].msg.key]
      && r.queue.data == a.queue.data - {id} && (forall x :: x in r.queue.send <==> x in a.queue.send && x != id)
      && r.wire == (if isRequest then [] else a.wire) && r.request == (if isRequest then None else a.request)
      && r.accepted == a.accepted && r.lost == a.lost && r.invoked == a.invoked && r.uniqId == a.uniqId
  {
    WithoutHas(a.queue.send, id);
  }

  /** Closing forgets what the peer had yet to answer, and nothing else. */
  lemma ClosingKeepsRequests(a: Adapter, serial: bool, limit: nat)
    requires Ledger(a)
    ensures Do(a, serial, limit, Closes) == a.(wire := [])
  {
  }

  // ---- sending what waits

  /** In serial mode the oldest waiting request is sent when there is no other, and becomes the request. */
  lemma SerialFlush(a: Adapter, limit: nat, send: Send)
    requires Ledger(a)
    ensures var r := Do(a, true, limit, Flushes([send]));
      if a.request.Some? || a.queue.send == [] || send.NotSent? then r == a
      else
        var id := a.queue.send[0];
        && id in a.queue.data && r.queue.data - {id} == a.queue.data - {id} && r.uniqId == a.uniqId
        && r.invoked == a.invoked && r.lost == a.lost
        && if send.Throws? then r == a.(wire := [])
           else if send.Error? then
             && r.finished == a.finished + [a.queue.data[id].msg.key] && r.wire == [] && r.request == None
             && id !in r.queue.data && r.queue.send == a.queue.send[1..] && r.accepted == a.accepted
           else
             && r.accepted == a.accepted + [a.queue.data[id].msg.key] && r.request == Some(a.queue.data[id].msg)
             && r.wire == a.wire + [a.queue.data[id].msg.key] && r.finished == a.finished
             && id in r.queue.data && r.queue.data[id] == a.queue.data[id].(hasSend := true)
             && r.queue.send == a.queue.send[1..]
  {
    if a.queue.send != [] { assert a.queue.send[0] in a.queue.send; }
  }

  /** How many of the answers in a row are Ok. */
  function Oks(sends: seq<Send>): (n: nat)
    ensures n <= |sends| && (forall i :: 0 <= i < n ==> sends[i].Ok?) && (n < |sends| ==> !sends[n].Ok?)
  {
    if sends == [] || !sends[0].Ok? then 0 else 1 + Oks(sends[1..])
  }

  /** How many messages the transport takes with these answers: while it says Ok, and one more when it fills up. */
  function CountTaken(sends: seq<Send>): (n: nat)
    ensures n <= |sends|
  {
    Oks(sends) + if Oks(sends) < |sends| && sends[Oks(sends)].Full? then 1 else 0
  }

  function Least(a: nat, b: nat): nat {
    if a < b then a else b
  }

  /** The connection fails while there is something to send. */
  predicate FailsSending(a: Adapter, sends: seq<Send>) {
    Oks(sends) < |a.queue.send| && Oks(sends) < |sends| && (sends[Oks(sends)].Error? || sends[Oks(sends)].Throws?)
  }

  lemma OldestIsSent(a: Adapter)
    requires Ledger(a) && a.queue.send != []
    ensures var r := SendOldest(a);
      && Ledger(r) && Unsent(a.queue) == [Oldest(a).key] + Unsent(r.queue)
      && r.accepted == a.accepted + [Oldest(a).key] && r.wire == a.wire + [Oldest(a).key]
      && r.queue.send == a.queue.send[1..]
      && r.invoked == a.invoked && r.lost == a.lost && r.request == a.request && r.uniqId == a.uniqId
  {
    SendOldestKeepsLedger(a);
    UnsentAfterPop(a.queue, Oldest(a).oneWay);
  }

  /** In parallel mode the transport gets the waiting requests oldest first, as many as it takes; the rest waits on in
      order. */
  lemma {:induction false} ParallelFlush(a: Adapter, sends: seq<Send>)
    requires Ledger(a)
    ensures var r, n := DoInvokeParallel(a, sends), Least(CountTaken(sends), |a.queue.send|);
      && r.accepted == a.accepted + Unsent(a.queue)[..n] && Unsent(r.queue) == Unsent(a.queue)[n..]
      && r.queue.send == a.queue.send[n..]
      && r.invoked == a.invoked && r.lost == a.lost && r.request == a.request && r.uniqId == a.uniqId
    decreases |sends|
  {
    if a.queue.send == [] || sends == [] || (!sends[0].Ok? && !sends[0].Full?) { return; }
    OldestIsSent(a);
    var b, u := SendOldest(a), Unsent(a.queue);
    if sends[0].Ok? {
      ParallelFlush(b, sends[1..]);
      Onwards(a, b, sends, u, Unsent(b.queue));
      Rejoin(a.accepted, u, Least(CountTaken(sends), |u|));
    } else {
      assert u[..1] == [u[0]];
    }
  }

  /** They are what the peer then has to answer, unless the connection failed. */
  lemma {:induction false} ParallelFlushWire(a: Adapter, sends: seq<Send>)
    requires Ledger(a)
    ensures var n := Least(CountTaken(sends), |a.queue.send|);
      DoInvokeParallel(a, sends).wire == if FailsSending(a, sends) then [] else a.wire + Unsent(a.queue)[..n]
    decreases |sends|
  {
    if a.queue.send == [] || sends == [] || (!sends[0].Ok? && !sends[0].Full?) { return; }
    OldestIsSent(a);
    var b, u := SendOldest(a), Unsent(a.queue);
    if sends[0].Ok? {
      ParallelFlushWire(b, sends[1..]);
      Onwards(a, b, sends, u, Unsent(b.queue));
      Rejoin(a.wire, u, Least(CountTaken(sends), |u|));
    } else {
      assert u[..1] == [u[0]];
    }
  }

  lemma Rejoin(w: seq<nat>, u: seq<nat>, n: nat)
    requires 0 < n <= |u|
    ensures w + [u[0]] + u[1..][..n - 1] == w + u[..n]
  {
  }

  /** Counting on behind the first Ok. */
  lemma Onwards(a: Adapter, b: Adapter, sends: seq<Send>, u: seq<nat>, v: seq<nat>)
    requires sends != [] && sends[0].Ok? && u != [] && v == u[1..] && |u| == |a.queue.send| == |b.queue.send| + 1
    ensures var n, k := Least(CountTaken(sends), |u|), Least(CountTaken(sends[1..]), |v|);
      && n == k + 1 && u[..n] == [u[0]] + v[..k] && u[n..] == v[k..]
      && a.queue.send[n..] == a.queue.send[1..][k..]
    ensures FailsSending(a, sends) <==> FailsSending(b, sends[1..])
  {
  }

  /** A request sent so is marked, or, if it is one-way, finished and gone; no other entry changes. */
  lemma {:induction false} ParallelFlushMarks(a: Adapter, sends: seq<Send>, id: nat)
    requires Ledger(a) && id in a.queue.data
    ensures var r := DoInvokeParallel(a, sends).queue.data;
      var sent := id in a.queue.send[..Least(CountTaken(sends), |a.queue.send|)];
      if !sent then id in r && r[id] == a.queue.data[id]
      else if a.queue.data[id].msg.oneWay then id !in r
      else id in r && r[id] == a.queue.data[id].(hasSend := true)
    decreases |sends|
  {
    if a.queue.send == [] || sends == [] || (!sends[0].Ok? && !sends[0].Full?) { return; }
    OldestIsSent(a);
    OldestIsMarked(a, id);
    var b, u := SendOldest(a), a.queue.send;
    if sends[0].Ok? {
      Onwards(a, b, sends, u, b.queue.send);
      AmongTheFirst(u, Least(CountTaken(sends), |u|), id);
      if id in b.queue.data {
        ParallelFlushMarks(b, sends[1..], id);
      } else {
        FlushAddsNothing(b, sends[1..], id);
      }
    } else {
      assert u[..1] == [u[0]];
    }
  }

  lemma OldestIsMarked(a: Adapter, id: nat)
    requires Ledger(a) && a.queue.send != [] && id in a.queue.data
    ensures var r := SendOldest(a).queue.data;
      if id != a.queue.send[0] then id in r && r[id] == a.queue.data[id]
      else if a.queue.data[id].msg.oneWay then id !in r
      else id in r && r[id] == a.queue.data[id].(hasSend := true)
  {
    assert a.queue.send[0] in a.queue.send;
  }

  lemma AmongTheFirst(u: seq<nat>, n: nat, id: nat)
    requires 0 < n <= |u| && NoRepeats(u)
    ensures id in u[..n] <==> id == u[0] || id in u[1..][..n - 1]
    ensures id == u[0] ==> id !in u[1..][..n - 1]
  {
    assert u[..n] == [u[0]] + u[1..][..n - 1];
  }

  lemma {:induction false} FlushAddsNothing(a: Adapter, sends: seq<Send>, id: nat)
    requires Ledger(a) && id !in a.queue.data
    ensures id !in DoInvokeParallel(a, sends).queue.data
    decreases |sends|
  {
    if a.queue.send != [] && sends != [] && sends[0].Ok? {
      OldestIsSent(a);
      FlushAddsNothing(SendOldest(a), sends[1..], id);
    }
  }

  /** So with a transport that takes everything nothing is left unsent. */
  lemma ParallelFlushSendsAll(a: Adapter, sends: seq<Send>)
    requires Ledger(a) && |sends| >= |a.queue.send| && forall i :: 0 <= i < |sends| ==> sends[i].Ok?
    ensures DoInvokeParallel(a, sends).queue.send == []
    ensures DoInvokeParallel(a, sends).accepted == a.accepted + Unsent(a.queue)
  {
    ParallelFlush(a, sends);
  }

  // ---- the unsent list stays short

  lemma StepKeepsShort(a: Adapter, serial: bool, limit: nat, step: Step)
    requires Ledger(a) && Enabled(a, serial, step) && |a.queue.send| <= limit + 1
    ensures |Do(a, serial, limit, step).queue.send| <= limit + 1
  {
    match step {
      case DoesInvoke(m, send) => InvokeQueues(a, serial, limit, m, send);
      case Flushes(sends) => if !serial { ParallelFlush(a, sends); }
      case Answers(id) =>
      case Closes =>
      case Expires(id) =>
    }
  }

  /** In every run at most one request more than the limit waits to be sent. */
  lemma {:induction false} RunsKeepShort(a: Adapter, serial: bool, limit: nat, steps: seq<Step>)
    requires Ledger(a) && Legal(a, serial, limit, steps) && |a.queue.send| <= limit + 1
    ensures |Final(a, serial, limit, steps).queue.send| <= limit + 1
    decreases |steps|
  {
    if steps != [] {
      StepKeepsLedger(a, serial, limit, steps[0]);
      StepKeepsShort(a, serial, limit, steps[0]);
      RunsKeepShort(Do(a, serial, limit, steps[0]), serial, limit, steps[1..]);
    }
  }
}
