/**
 Serial mode: at most one request is outstanding on a live connection, and a reply is paired with the request it answers
 (for HTTP/1, section 9.2 of RFC 9112: responses come in the order of the requests on their connection).
 */
module SerialPairing {
  import opened Collections
  import opened TimeoutQueue
  import opened Connection

  /** The only message sent and still queued is the request; what the peer has yet to answer is nothing or the
      request. */
  ghost predicate OneRequest(a: Adapter) {
    && ValidQueue(a.queue)
    && (forall id :: id in a.queue.data ==> a.queue.data[id].msg.requestId == id && !a.queue.data[id].msg.oneWay)
    && (a.request.Some? ==>
          && a.request.value.requestId in a.queue.data
          && a.queue.data[a.request.value.requestId].msg == a.request.value
          && a.queue.data[a.request.value.requestId].hasSend)
    && (forall id :: id in a.queue.data && a.queue.data[id].hasSend ==> a.request == Some(a.queue.data[id].msg))
    && (a.wire == [] || (a.request.Some? && a.wire == [a.request.value.key]))
  }

  /** With no request and nothing unsent the queue is empty, so the id of a message sent directly is never taken: the
      source's failure branch after a successful send (lines 340 to 348) cannot be reached. */
  lemma DirectSendFindsEmptyQueue(a: Adapter)
    requires OneRequest(a) && a.request.None? && a.queue.send == []
    ensures a.queue.data == map[]
  {
    assert a.queue.data.Keys == {};
  }

  lemma EnqueueKeepsOne(a: Adapter, m: Msg)
    requires OneRequest(a) && !m.oneWay
    ensures OneRequest(Enqueue(a, m, false))
  {
    if m.requestId !in a.queue.data { PushKeeps(a.queue, m.requestId, m, m.deadline, false); }
  }

  lemma InvokeKeepsOne(a: Adapter, limit: nat, m: Msg, send: Send)
    requires OneRequest(a) && !m.oneWay
    ensures OneRequest(Invoke(a, true, limit, m, send))
  {
    var a1 := a.(invoked := a.invoked + [m.key]);
    var m2 := if m.fromRpc then m else m.(requestId := NextId(a1.uniqId));
    var a2 := if m.fromRpc then a1 else a1.(uniqId := m2.requestId);
    assert OneRequest(a2);
    InvokeSerialKeepsOne(a2, m2, send);
  }

  lemma InvokeSerialKeepsOne(a: Adapter, m: Msg, send: Send)
    requires OneRequest(a) && !m.oneWay
    ensures OneRequest(InvokeSerial(a, m, send))
  {
    var m' := m.(requestId := NextId(a.uniqId));
    var a' := a.(uniqId := m'.requestId);
    assert OneRequest(a');
    EnqueueKeepsOne(a', m');
    if a.request.None? && a.queue.send == [] {
      DirectSendFindsEmptyQueue(a');
      PushKeeps(a.queue, m'.requestId, m', m'.deadline, true);
    }
  }

  lemma FlushKeepsOne(a: Adapter, send: Send)
    requires OneRequest(a)
    ensures OneRequest(DoInvokeSerial(a, send))
  {
    if a.request.None? && a.queue.send != [] {
      PopKeeps(a.queue, false);
      PopKeeps(a.queue, true);
    }
  }

  lemma SettleKeepsOne(a: Adapter, id: nat)
    requires OneRequest(a) && id in a.queue.data
    ensures a.request == Some(a.queue.data[id].msg) ==> OneRequest(Settle(Close(a).(request := None), id))
    ensures a.request != Some(a.queue.data[id].msg) ==> OneRequest(Settle(a, id))
  {
    EraseKeeps(a.queue, id);
  }

  lemma StepKeepsOne(a: Adapter, limit: nat, step: Step)
    requires OneRequest(a) && Enabled(a, true, step)
    ensures OneRequest(Do(a, true, limit, step))
  {
    match step {
      case DoesInvoke(m, send) => InvokeKeepsOne(a, limit, m, send);
      case Flushes(sends) => FlushKeepsOne(a, if sends == [] then NotSent else sends[0]);
      case Answers(_) => SettleKeepsOne(a, a.request.value.requestId);
      case Closes =>
      case Expires(id) => SettleKeepsOne(a, id);
    }
  }

  lemma {:induction false} RunsKeepOne(a: Adapter, limit: nat, steps: seq<Step>)
    requires Ledger(a) && OneRequest(a) && Legal(a, true, limit, steps)
    ensures OneRequest(Final(a, true, limit, steps))
    decreases |steps|
  {
    if steps != [] {
      StepKeepsLedger(a, true, limit, steps[0]);
      StepKeepsOne(a, limit, steps[0]);
      RunsKeepOne(Do(a, true, limit, steps[0]), limit, steps[1..]);
    }
  }

  /** What an answer meets after any run: one request is outstanding, it is the one the peer answers, it is still queued
      and unfinished (the asserts of finishInvoke_serial), and it is what the answer finishes. */
  lemma AnswersArePaired(limit: nat, steps: seq<Step>, id: nat)
    requires Legal(FRESH, true, limit, steps)
    requires Enabled(Final(FRESH, true, limit, steps), true, Answers(id))
    ensures var a := Final(FRESH, true, limit, steps);
      && |a.wire| == 1 && a.request.Some? && a.request.value.key == a.wire[0]
      && a.request.value.requestId in a.queue.data
      && a.queue.data[a.request.value.requestId].msg == a.request.value
      && !a.request.value.oneWay && a.wire[0] !in a.finished
      && var r := Do(a, true, limit, Answers(id));
      && r.finished == a.finished + [a.wire[0]] && r.request == None && r.wire == []
  {
    RunsKeepOne(FRESH, limit, steps);
    var a := Final(FRESH, true, limit, steps);
    assert a.queue.data[a.request.value.requestId].msg.key in Held(a.queue.data);
  }

  lemma AtMostOneOutstanding(limit: nat, steps: seq<Step>)
    requires Legal(FRESH, true, limit, steps)
    ensures |Final(FRESH, true, limit, steps).wire| <= 1
  {
    RunsKeepOne(FRESH, limit, steps);
  }

  /** A connection that closes keeps its request. Until that is answered or times out nothing more is sent, on the next
      connection neither. */
  lemma NothingSentMeanwhile(a: Adapter, limit: nat, step: Step)
    requires OneRequest(a) && Enabled(a, true, step) && a.request.Some?
    requires !step.Answers? && (step.Expires? ==> step.id != a.request.value.requestId)
    ensures var r := Do(a, true, limit, step); r.request == a.request && r.accepted == a.accepted
  {
  }

  /** A reply nobody asked for on this connection is dropped exactly when there is no request; with a request left over
      from a closed connection it is taken for the answer to that. */
  lemma StrayReply(a: Adapter, id: nat)
    requires OneRequest(a) && a.wire == []
    ensures Reply(a, true, id) == a <==> a.request.None?
    ensures a.request.Some? ==> Reply(a, true, id).finished == a.finished + [a.request.value.key]
  {
  }

  lemma AStrayReplyCanBeMistaken(m: Msg, limit: nat)
    requires !m.oneWay
    ensures var a := Close(Invoke(FRESH, true, limit, m, Ok));
      a.wire == [] && Reply(a, true, 0).finished == [m.key]
  {
  }
}
