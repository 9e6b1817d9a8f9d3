/**
 The requests of one AdapterProxy, from invoke to their end. In serial mode a connection carries one request at a
 time and a reply belongs to the request sent last; in parallel mode replies carry the id of their request. The
 transport's answer to each send is an input.
 */
module Connection {
  import opened Collections
  import opened TimeoutQueue

  /** `key` tells messages apart and never changes; `deadline` is the begin time plus the timeout. */
  datatype Msg = Msg(key: nat, oneWay: bool, fromRpc: bool, requestId: nat, deadline: int)

  /** What TC_Transceiver::sendRequest does: all sent; sent or buffered, the transport is full; nothing sent; the
      connection failed and was closed; the same with an exception thrown. */
  datatype Send = Ok | Full | NotSent | Error | Throws

  /** The logs hold keys: messages given to invoke, messages the transport accepted, messages finished (answered,
      failed, timed out, or one-way and done with), and messages lost to an exception. `wire` holds what the peer of
      the live connection has yet to answer. */
  datatype Adapter = Adapter(
    queue: Queue<Msg>, uniqId: nat, request: Option<Msg>, wire: seq<nat>,
    invoked: seq<nat>, accepted: seq<nat>, finished: seq<nat>, lost: seq<nat>)

  const FRESH: Adapter := Adapter(Queue(map[], []), 0, None, [], [], [], [], [])

  // ---- the operations as functions

  function Finish(a: Adapter, m: Msg): Adapter { a.(finished := a.finished + [m.key]) }

  function Accept(a: Adapter, m: Msg): Adapter { a.(accepted := a.accepted + [m.key], wire := a.wire + [m.key]) }

  function Close(a: Adapter): Adapter { a.(wire := []) }

  function Lose(a: Adapter, m: Msg): Adapter { Close(a).(lost := a.lost + [m.key]) }

  /** Queue the message as sent or unsent; one whose id is taken fails. */
  function Enqueue(a: Adapter, m: Msg, hasSend: bool): Adapter {
    if m.requestId in a.queue.data then Finish(a, m)
    else a.(queue := Pushed(a.queue, m.requestId, m, m.deadline, hasSend))
  }

  function InvokeSerial(a: Adapter, m: Msg, send: Send): Adapter {
    var m := m.(requestId := NextId(a.uniqId));
    var a := a.(uniqId := m.requestId);
    if a.request.Some? || a.queue.send != [] then Enqueue(a, m, false)
    else
      match send
      case Ok | Full =>
        if m.requestId in a.queue.data then Finish(Accept(a, m), m)
        else Enqueue(Accept(a, m), m, true).(request := Some(m))
      case NotSent => Enqueue(a, m, false)
      case Error => Finish(Close(a), m)
      case Throws => Lose(a, m)
  }

  function InvokeParallel(a: Adapter, m: Msg, send: Send): Adapter {
    if a.queue.send != [] then Enqueue(a, m, false)
    else
      match send
      case Ok | Full => if m.oneWay then Finish(Accept(a, m), m) else Enqueue(Accept(a, m), m, true)
      case NotSent => Enqueue(a, m, false)
      case Error => Finish(Close(a), m)
      case Throws => Lose(a, m)
  }

  /** Too long an unsent list refuses the message; a message not coming from an RPC call gets an id here. */
  function Invoke(a: Adapter, serial: bool, limit: nat, m: Msg, send: Send): Adapter {
    var a := a.(invoked := a.invoked + [m.key]);
    if |a.queue.send| > limit then Finish(a, m)
    else
      var m := if m.fromRpc then m else m.(requestId := NextId(a.uniqId));
      var a := if m.fromRpc then a else a.(uniqId := m.requestId);
      if serial then InvokeSerial(a, m, send) else InvokeParallel(a, m, send)
  }

  function Oldest(a: Adapter): Msg
    requires ValidQueue(a.queue) && a.queue.send != []
  {
    assert a.queue.send[0] in a.queue.send;
    a.queue.data[a.queue.send[0]].msg
  }

  function DoInvokeSerial(a: Adapter, send: Send): Adapter
    requires ValidQueue(a.queue)
  {
    if a.request.Some? || a.queue.send == [] then a
    else
      var m := Oldest(a);
      match send
      case Ok | Full => Accept(a.(queue := Popped(a.queue, false), request := Some(m)), m)
      case NotSent => a
      case Error => Finish(Close(a.(queue := Popped(a.queue, true))), m)
      case Throws => Close(a)
  }

  /** The oldest unsent message is sent; a one-way message is then done with. */
  function SendOldest(a: Adapter): (r: Adapter)
    requires ValidQueue(a.queue) && a.queue.send != []
    ensures ValidQueue(r.queue) && |r.queue.send| < |a.queue.send|
  {
    var m := Oldest(a);
    PopKeeps(a.queue, m.oneWay);
    var r := Accept(a.(queue := Popped(a.queue, m.oneWay)), m);
    if m.oneWay then Finish(r, m) else r
  }

  /** `sends` are the transport's answers in turn; without one nothing is sent. */
  function DoInvokeParallel(a: Adapter, sends: seq<Send>): Adapter
    requires ValidQueue(a.queue)
    decreases |sends|
  {
    if a.queue.send == [] || sends == [] then a
    else
      match sends[0]
      case Ok => DoInvokeParallel(SendOldest(a), sends[1..])
      case Full => SendOldest(a)
      case NotSent => a
      case Error => Close(a)
      case Throws => Close(a)
  }

  /** A message leaves the queue for good. */
  function Settle(a: Adapter, id: nat): Adapter
    requires id in a.queue.data
  {
    Finish(a.(queue := Erased(a.queue, id)), a.queue.data[id].msg)
  }

  /** finishInvoke of a reply. In serial mode the reply is taken for the answer to the request, whatever its id; in
      parallel mode the id zero marks a message the peer pushes, which answers nothing. */
  function Reply(a: Adapter, serial: bool, id: nat): Adapter {
    if serial then
      if a.request.None? || a.request.value.requestId !in a.queue.data then a
      else Settle(a.(request := None), a.request.value.requestId)
    else if id != 0 && id in a.queue.data then Settle(a, id)
    else a
  }

  /** One message of the queue timed out; when it is the request, the connection is closed. */
  function Expire(a: Adapter, id: nat): Adapter
    requires id in a.queue.data
  {
    var a := if a.request == Some(a.queue.data[id].msg) then Close(a).(request := None) else a;
    Settle(a, id)
  }

  datatype Step =
    | DoesInvoke(m: Msg, send: Send)
    | Flushes(sends: seq<Send>) // the transport can send again, or connected
    | Answers(id: nat)          // the peer answers the oldest request on the wire (serial), or some id (parallel)
    | Closes                    // the connection is closed, by the peer or by the circuit breaker
    | Expires(id: nat)

  predicate Enabled(a: Adapter, serial: bool, step: Step) {
    match step
    case DoesInvoke(m, _) => m.key !in a.invoked && (serial ==> !m.oneWay)
    case Flushes(_) => true
    case Answers(_) => serial ==> a.wire != []
    case Closes => true
    case Expires(id) => id in a.queue.data
  }

  function Do(a: Adapter, serial: bool, limit: nat, step: Step): Adapter
    requires ValidQueue(a.queue) && Enabled(a, serial, step)
  {
    match step
    case DoesInvoke(m, send) => Invoke(a, serial, limit, m, send)
    case Flushes(sends) =>
      if serial then DoInvokeSerial(a, if sends == [] then NotSent else sends[0]) else DoInvokeParallel(a, sends)
    case Answers(id) => if serial then Reply(a.(wire := a.wire[1..]), true, id) else Reply(a, false, id)
    case Closes => Close(a)
    case Expires(id) => Expire(a, id)
  }

  // ---- each message is in one place

  function Held(data: map<nat, Entry<Msg>>): set<nat> {
    set id | id in data :: data[id].msg.key
  }

  ghost predicate Distinct(data: map<nat, Entry<Msg>>) {
    forall i, j :: i in data && j in data && data[i].msg.key == data[j].msg.key ==> i == j
  }

  /** Every message given to invoke is in the queue, finished or lost; in one of them only, and once. */
  ghost predicate Ledger(a: Adapter) {
    && ValidQueue(a.queue) && Distinct(a.queue.data)
    && NoRepeats(a.finished) && NoRepeats(a.lost)
    && (forall k :: k in a.invoked <==> k in Held(a.queue.data) || k in a.finished || k in a.lost)
    && (forall k :: k in a.finished ==> k !in Held(a.queue.data) && k !in a.lost)
    && (forall k :: k in a.lost ==> k !in Held(a.queue.data))
  }

  lemma HeldAfterPush(q: Queue<Msg>, m: Msg, hasSend: bool)
    requires ValidQueue(q) && Distinct(q.data) && m.requestId !in q.data && m.key !in Held(q.data)
    ensures var r := Pushed(q, m.requestId, m, m.deadline, hasSend);
      ValidQueue(r) && Distinct(r.data) && Held(r.data) == Held(q.data) + {m.key}
  {
    PushKeeps(q, m.requestId, m, m.deadline, hasSend);
    var r := Pushed(q, m.requestId, m, m.deadline, hasSend).data;
    forall k ensures k in Held(r) <==> k in Held(q.data) || k == m.key {
      if k in Held(q.data) { var id :| id in q.data && q.data[id].msg.key == k; assert r[id].msg.key == k; }
      if k == m.key { assert r[m.requestId].msg.key == k; }
    }
  }

  lemma HeldAfterErase(q: Queue<Msg>, id: nat)
    requires ValidQueue(q) && Distinct(q.data) && id in q.data
    ensures var r := Erased(q, id);
      ValidQueue(r) && Distinct(r.data) && Held(r.data) == Held(q.data) - {q.data[id].msg.key}
  {
    EraseKeeps(q, id);
    var r := Erased(q, id).data;
    forall k ensures k in Held(r) <==> k in Held(q.data) && k != q.data[id].msg.key {
      if k in Held(q.data) && k != q.data[id].msg.key {
        var j :| j in q.data && q.data[j].msg.key == k;
        assert r[j].msg.key == k;
      }
    }
  }

  lemma HeldAfterPop(q: Queue<Msg>, del: bool)
    requires ValidQueue(q) && Distinct(q.data) && q.send != []
    ensures q.send[0] in q.data
    ensures var r := Popped(q, del);
      && ValidQueue(r) && Distinct(r.data)
      && Held(r.data) == if del then Held(q.data) - {q.data[q.send[0]].msg.key} else Held(q.data)
  {
    PopKeeps(q, del);
    var r := Popped(q, del).data;
    var x := q.data[q.send[0]].msg.key;
    forall k ensures k in Held(r) <==> k in Held(q.data) && (del ==> k != x) {
      if k in Held(q.data) && (del ==> k != x) {
        var j :| j in q.data && q.data[j].msg.key == k;
        assert r[j].msg.key == k;
      }
    }
  }

  /** The message is new and in no place yet, all others are in theirs. */
  ghost predicate LedgerBut(a: Adapter, m: Msg) {
    && ValidQueue(a.queue) && Distinct(a.queue.data)
    && NoRepeats(a.finished) && NoRepeats(a.lost)
    && (forall k :: k in a.invoked <==> k in Held(a.queue.data) || k in a.finished || k in a.lost || k == m.key)
    && (forall k :: k in a.finished ==> k !in Held(a.queue.data) && k !in a.lost)
    && (forall k :: k in a.lost ==> k !in Held(a.queue.data))
    && m.key !in Held(a.queue.data) && m.key !in a.finished && m.key !in a.lost
  }

  lemma EnqueueKeeps(a: Adapter, m: Msg, hasSend: bool)
    requires LedgerBut(a, m)
    ensures Ledger(Enqueue(a, m, hasSend))
  {
    if m.requestId !in a.queue.data { HeldAfterPush(a.queue, m, hasSend); }
  }

  lemma FinishKeeps(a: Adapter, m: Msg)
    requires LedgerBut(a, m)
    ensures Ledger(Finish(a, m)) && Ledger(Lose(a, m))
  {
  }

  lemma InvokeSerialKeepsLedger(a: Adapter, m: Msg, send: Send)
    requires LedgerBut(a, m)
    ensures Ledger(InvokeSerial(a, m, send))
  {
    var m' := m.(requestId := NextId(a.uniqId));
    var a' := a.(uniqId := m'.requestId);
    assert LedgerBut(a', m') && LedgerBut(Accept(a', m'), m') && LedgerBut(Close(a'), m');
    EnqueueKeeps(a', m', false);
    EnqueueKeeps(Accept(a', m'), m', true);
    FinishKeeps(Accept(a', m'), m');
    FinishKeeps(Close(a'), m');
    FinishKeeps(a', m');
  }

  lemma InvokeParallelKeepsLedger(a: Adapter, m: Msg, send: Send)
    requires LedgerBut(a, m)
    ensures Ledger(InvokeParallel(a, m, send))
  {
    assert LedgerBut(Accept(a, m), m) && LedgerBut(Close(a), m);
    EnqueueKeeps(a, m, false);
    EnqueueKeeps(Accept(a, m), m, true);
    FinishKeeps(Accept(a, m), m);
    FinishKeeps(Close(a), m);
    FinishKeeps(a, m);
  }

  lemma InvokeKeepsLedger(a: Adapter, serial: bool, limit: nat, m: Msg, send: Send)
    requires Ledger(a) && m.key !in a.invoked
    ensures Ledger(Invoke(a, serial, limit, m, send))
  {
    var a1 := a.(invoked := a.invoked + [m.key]);
    assert LedgerBut(a1, m);
    FinishKeeps(a1, m);
    var m2 := if m.fromRpc then m else m.(requestId := NextId(a1.uniqId));
    var a2 := if m.fromRpc then a1 else a1.(uniqId := m2.requestId);
    assert LedgerBut(a2, m2);
    InvokeSerialKeepsLedger(a2, m2, send);
    InvokeParallelKeepsLedger(a2, m2, send);
  }

  lemma SettleKeepsLedger(a: Adapter, id: nat)
    requires Ledger(a) && id in a.queue.data
    ensures Ledger(Settle(a, id))
  {
    HeldAfterErase(a.queue, id);
    assert a.queue.data[id].msg.key in Held(a.queue.data);
  }

  lemma SendOldestKeepsLedger(a: Adapter)
    requires Ledger(a) && a.queue.send != []
    ensures Ledger(SendOldest(a))
  {
    var m := Oldest(a);
    HeldAfterPop(a.queue, m.oneWay);
    assert m.key in Held(a.queue.data);
  }

  lemma {:induction false} FlushKeepsLedger(a: Adapter, sends: seq<Send>)
    requires Ledger(a)
    ensures Ledger(DoInvokeParallel(a, sends))
    decreases |sends|
  {
    if a.queue.send != [] && sends != [] {
      SendOldestKeepsLedger(a);
      if sends[0].Ok? { FlushKeepsLedger(SendOldest(a), sends[1..]); }
    }
  }

  lemma FlushSerialKeepsLedger(a: Adapter, send: Send)
    requires Ledger(a)
    ensures Ledger(DoInvokeSerial(a, send))
  {
    if a.queue.send != [] {
      HeldAfterPop(a.queue, false);
      HeldAfterPop(a.queue, true);
      assert Oldest(a).key in Held(a.queue.data);
    }
  }

  lemma StepKeepsLedger(a: Adapter, serial: bool, limit: nat, step: Step)
    requires Ledger(a) && Enabled(a, serial, step)
    ensures Ledger(Do(a, serial, limit, step))
  {
    match step {
      case DoesInvoke(m, send) => InvokeKeepsLedger(a, serial, limit, m, send);
      case Flushes(sends) =>
        if serial {
          FlushSerialKeepsLedger(a, if sends == [] then NotSent else sends[0]);
        } else {
          FlushKeepsLedger(a, sends);
        }
      case Answers(id) =>
        if serial && a.request.Some? && a.request.value.requestId in a.queue.data {
          SettleKeepsLedger(a.(wire := a.wire[1..], request := None), a.request.value.requestId);
        } else if !serial && id in a.queue.data {
          SettleKeepsLedger(a, id);
        }
      case Closes =>
      case Expires(id) =>
        SettleKeepsLedger(if a.request == Some(a.queue.data[id].msg) then Close(a).(request := None) else a, id);
    }
  }

  // ---- each message is filed under its own id and deadline

  ghost predicate Filed(a: Adapter) {
    forall id :: id in a.queue.data ==>
      a.queue.data[id].msg.requestId == id && a.queue.data[id].deadline == a.queue.data[id].msg.deadline
  }

  lemma InvokeSerialKeepsFiled(a: Adapter, m: Msg, send: Send)
    requires Filed(a)
    ensures Filed(InvokeSerial(a, m, send))
  {
  }

  lemma InvokeParallelKeepsFiled(a: Adapter, m: Msg, send: Send)
    requires Filed(a)
    ensures Filed(InvokeParallel(a, m, send))
  {
  }

  lemma InvokeKeepsFiled(a: Adapter, serial: bool, limit: nat, m: Msg, send: Send)
    requires Filed(a)
    ensures Filed(Invoke(a, serial, limit, m, send))
  {
    var a1 := a.(invoked := a.invoked + [m.key]);
    var m2 := if m.fromRpc then m else m.(requestId := NextId(a1.uniqId));
    var a2 := if m.fromRpc then a1 else a1.(uniqId := m2.requestId);
    assert Filed(a2);
    InvokeSerialKeepsFiled(a2, m2, send);
    InvokeParallelKeepsFiled(a2, m2, send);
  }

  lemma SendOldestKeepsFiled(a: Adapter)
    requires ValidQueue(a.queue) && a.queue.send != [] && Filed(a)
    ensures Filed(SendOldest(a))
  {
    PopKeeps(a.queue, Oldest(a).oneWay);
  }

  lemma {:induction false} FlushKeepsFiled(a: Adapter, sends: seq<Send>)
    requires ValidQueue(a.queue) && Filed(a)
    ensures Filed(DoInvokeParallel(a, sends))
    decreases |sends|
  {
    if a.queue.send != [] && sends != [] {
      SendOldestKeepsFiled(a);
      if sends[0].Ok? { FlushKeepsFiled(SendOldest(a), sends[1..]); }
    }
  }

  lemma FlushSerialKeepsFiled(a: Adapter, send: Send)
    requires ValidQueue(a.queue) && Filed(a)
    ensures Filed(DoInvokeSerial(a, send))
  {
    if a.queue.send != [] {
      PopKeeps(a.queue, false);
      PopKeeps(a.queue, true);
    }
  }

  /** So a message times out by its own deadline, whenever and however it was queued. */
  lemma StepKeepsFiled(a: Adapter, serial: bool, limit: nat, step: Step)
    requires Ledger(a) && Enabled(a, serial, step) && Filed(a)
    ensures Filed(Do(a, serial, limit, step))
  {
    match step {
      case DoesInvoke(m, send) => InvokeKeepsFiled(a, serial, limit, m, send);
      case Flushes(sends) =>
        if serial {
          FlushSerialKeepsFiled(a, if sends == [] then NotSent else sends[0]);
        } else {
          FlushKeepsFiled(a, sends);
        }
      case Answers(id) =>
      case Closes =>
      case Expires(id) =>
    }
  }

  // ---- runs

  ghost predicate Legal(a: Adapter, serial: bool, limit: nat, steps: seq<Step>)
    requires Ledger(a)
    decreases |steps|
  {
    steps != [] ==>
      && Enabled(a, serial, steps[0])
      && (StepKeepsLedger(a, serial, limit, steps[0]);
          Legal(Do(a, serial, limit, steps[0]), serial, limit, steps[1..]))
  }

  ghost function Final(a: Adapter, serial: bool, limit: nat, steps: seq<Step>): (r: Adapter)
    requires Ledger(a) && Legal(a, serial, limit, steps)
    ensures Ledger(r)
    decreases |steps|
  {
    if steps == [] then a
    else
      StepKeepsLedger(a, serial, limit, steps[0]);
      Final(Do(a, serial, limit, steps[0]), serial, limit, steps[1..])
  }

  lemma {:induction false} RunsKeepFiled(a: Adapter, serial: bool, limit: nat, steps: seq<Step>)
    requires Ledger(a) && Legal(a, serial, limit, steps) && Filed(a)
    ensures Filed(Final(a, serial, limit, steps))
    decreases |steps|
  {
    if steps != [] {
      StepKeepsLedger(a, serial, limit, steps[0]);
      StepKeepsFiled(a, serial, limit, steps[0]);
      RunsKeepFiled(Do(a, serial, limit, steps[0]), serial, limit, steps[1..]);
    }
  }

  predicate CanThrow(step: Step) {
    step.DoesInvoke? && step.send.Throws?
  }

  /** A message is lost exactly when it is sent directly and the transport throws. */
  lemma LostOnlyByThrowing(a: Adapter, serial: bool, limit: nat, step: Step)
    requires Ledger(a) && Enabled(a, serial, step)
    ensures Do(a, serial, limit, step).lost
      == if CanThrow(step) && a.queue.send == [] && !(serial && a.request.Some?) then a.lost + [step.m.key] else a.lost
  {
    if step.Flushes? && !serial { FlushLosesNothing(a, step.sends); }
  }

  lemma {:induction false} FlushLosesNothing(a: Adapter, sends: seq<Send>)
    requires ValidQueue(a.queue)
    ensures DoInvokeParallel(a, sends).lost == a.lost && DoInvokeParallel(a, sends).invoked == a.invoked
    decreases |sends|
  {
    if a.queue.send != [] && sends != [] && sends[0].Ok? { FlushLosesNothing(SendOldest(a), sends[1..]); }
  }

  /** As long as no direct send throws, every message is in the queue or finished, never both, and finished once. */
  lemma {:induction false} NothingIsLost(a: Adapter, serial: bool, limit: nat, steps: seq<Step>)
    requires Ledger(a) && Legal(a, serial, limit, steps) && a.lost == []
    requires forall k :: 0 <= k < |steps| ==> !CanThrow(steps[k])
    ensures var r := Final(a, serial, limit, steps);
      && r.lost == [] && NoRepeats(r.finished)
      && forall k :: k in r.invoked ==> (k in r.finished <==> k !in Held(r.queue.data))
    decreases |steps|
  {
    if steps != [] {
      StepKeepsLedger(a, serial, limit, steps[0]);
      LostOnlyByThrowing(a, serial, limit, steps[0]);
      NothingIsLost(Do(a, serial, limit, steps[0]), serial, limit, steps[1..]);
    }
  }

  /** Otherwise one is enough: a first message whose send throws is in no queue and never finished. */
  lemma AThrownMessageIsLost(m: Msg, serial: bool, limit: nat)
    ensures var r := Invoke(FRESH, serial, limit, m, Throws);
      m.key in r.invoked && m.key !in Held(r.queue.data) && m.key !in r.finished
  {
  }
}
