/**
 AdapterProxy's request methods as the source has them: fields updated in place around a timeout queue object, each
 proved to do what the functions of module Connection say. The transport's answer to a send is a parameter; the logs
 are ghost.
 */
module AdapterRequests {
  import opened Collections
  import opened TimeoutQueue
  import opened Connection

  const NO_MSG: Msg := Msg(0, false, false, 0, 0)

  /** These messages timed out, in this order. */
  function ExpireAll(a: Adapter, ids: seq<nat>): Adapter {
    if ids == [] then a
    else
      var b := ExpireAll(a, ids[..|ids| - 1]);
      if ids[|ids| - 1] in b.queue.data then Expire(b, ids[|ids| - 1]) else b
  }

  lemma ExpireOneMore(a: Adapter, ids: seq<nat>, id: nat)
    requires id in ExpireAll(a, ids).queue.data
    ensures ExpireAll(a, ids + [id]) == Expire(ExpireAll(a, ids), id)
  {
    assert (ids + [id])[..|ids|] == ids;
  }

  lemma {:induction false} ExpiringKeepsLedger(a: Adapter, ids: seq<nat>)
    requires Ledger(a)
    ensures Ledger(ExpireAll(a, ids)) && ExpireAll(a, ids).invoked == a.invoked && ExpireAll(a, ids).lost == a.lost
  {
    if ids != [] {
      ExpiringKeepsLedger(a, ids[..|ids| - 1]);
      var b := ExpireAll(a, ids[..|ids| - 1]);
      if ids[|ids| - 1] in b.queue.data { StepKeepsLedger(b, false, 0, Expires(ids[|ids| - 1])); }
    }
  }

  lemma {:induction false} ExpiringKeepsFiled(a: Adapter, ids: seq<nat>)
    requires Filed(a)
    ensures Filed(ExpireAll(a, ids))
  {
    if ids != [] { ExpiringKeepsFiled(a, ids[..|ids| - 1]); }
  }

  /** What is left of the queue once every message past its own deadline is out. */
  ghost predicate OnlyLater(data: map<nat, Entry<Msg>>, before: map<nat, Entry<Msg>>, now: int) {
    && (forall id :: id in data <==> id in before && before[id].msg.deadline > now)
    && (forall id :: id in data ==> data[id] == before[id])
  }

  /** On the way there: what is gone was due, what is left is as it was. */
  ghost predicate OnlyDueGone(data: map<nat, Entry<Msg>>, before: map<nat, Entry<Msg>>, now: int) {
    && (forall id :: id in data ==> id in before && data[id] == before[id])
    && (forall id :: id in before && id !in data ==> before[id].msg.deadline <= now)
  }

  /** The keys of these messages, one by one. */
  function KeysOf(data: map<nat, Entry<Msg>>, ids: seq<nat>): (r: seq<nat>)
    ensures |r| == |ids|
  {
    seq(|ids|, i requires 0 <= i < |ids| => if ids[i] in data then data[ids[i]].msg.key else 0)
  }

  /** Timing out messages finishes each of them once, in the order given, and takes just them out of the queue. */
  lemma {:induction false} ExpiredAreFinished(a: Adapter, ids: seq<nat>)
    requires NoRepeats(ids) && forall i :: 0 <= i < |ids| ==> ids[i] in a.queue.data
    ensures var r := ExpireAll(a, ids);
      && r.finished == a.finished + KeysOf(a.queue.data, ids)
      && (forall id :: id in r.queue.data <==> id in a.queue.data && id !in ids)
      && (forall id :: id in r.queue.data ==> r.queue.data[id] == a.queue.data[id])
      && r.accepted == a.accepted && r.lost == a.lost && r.invoked == a.invoked && r.uniqId == a.uniqId
  {
    if ids != [] {
      var n := |ids| - 1;
      ExpiredAreFinished(a, ids[..n]);
      assert ids == ids[..n] + [ids[n]];
      assert ids[n] !in ids[..n];
      assert KeysOf(a.queue.data, ids) == KeysOf(a.queue.data, ids[..n]) + [a.queue.data[ids[n]].msg.key];
    }
  }

  class AdapterProxy {
    const timeoutQueue: TimeoutQueueNew<Msg>
    const serial: bool
    const noSendQueueLimit: nat
    var requestMsg: Option<Msg>
    ghost var wire: seq<nat>
    ghost var invoked: seq<nat>
    ghost var accepted: seq<nat>
    ghost var finished: seq<nat>
    ghost var lost: seq<nat>

    ghost predicate Valid()
      reads this, timeoutQueue
    {
      timeoutQueue.Valid() && Filed(View())
    }

    ghost function View(): Adapter
      reads this, timeoutQueue
    {
      Adapter(timeoutQueue.View(), timeoutQueue.uniqId, requestMsg, wire, invoked, accepted, finished, lost)
    }

    constructor (isSerial: bool, limit: nat)
      ensures Valid() && fresh(timeoutQueue) && View() == FRESH
      ensures serial == isSerial && noSendQueueLimit == limit
    {
      timeoutQueue := new TimeoutQueueNew<Msg>();
      serial, noSendQueueLimit, requestMsg := isSerial, limit, None;
      wire, invoked, accepted, finished, lost := [], [], [], [], [];
    }

    method Push(m: Msg, hasSend: bool) returns (ok: bool)
      requires Valid()
      modifies this`finished, timeoutQueue
      ensures Valid() && View() == Enqueue(old(View()), m, hasSend)
      ensures ok <==> m.requestId !in old(timeoutQueue.data)
    {
      ok := timeoutQueue.Push(m, m.requestId, m.deadline, hasSend);
      if !ok { finished := finished + [m.key]; }
    }

    /** -1 tells the caller that the send failed. */
    method InvokeConnectionSerial(msg: Msg, send: Send) returns (ret: int)
      requires Valid() && !msg.oneWay
      modifies this, timeoutQueue
      ensures Valid() && View() == InvokeSerial(old(View()), msg, send)
      ensures ret == if send.Error? && old(requestMsg).None? && old(timeoutQueue.send) == [] then -1 else 0
    {
      InvokeSerialKeepsFiled(View(), msg, send);
      var id := timeoutQueue.GenerateId();
      var m := msg.(requestId := id);
      ret := 0;
      if requestMsg.None? && |timeoutQueue.send| == 0 {
        if send.Ok? || send.Full? {
          accepted, wire := accepted + [m.key], wire + [m.key];
          requestMsg := Some(m);
          var bFlag := Push(m, true);
          if !bFlag { requestMsg := None; }
          return;
        } else if send.Error? {
          wire := [];
          requestMsg := None;
          finished := finished + [m.key];
          return -1;
        } else if send.Throws? {
          wire, lost := [], lost + [m.key];
          return;
        }
      }
      var bFlag := Push(m, false);
    }

    method InvokeConnectionParallel(m: Msg, send: Send) returns (ret: int)
      requires Valid()
      modifies this, timeoutQueue
      ensures Valid() && View() == InvokeParallel(old(View()), m, send)
      ensures ret == if send.Error? && old(timeoutQueue.send) == [] then -1 else 0
    {
      InvokeParallelKeepsFiled(View(), m, send);
      ret := 0;
      if |timeoutQueue.send| == 0 {
        if send.Ok? || send.Full? {
          accepted, wire := accepted + [m.key], wire + [m.key];
          if m.oneWay {
            finished := finished + [m.key];
            return;
          }
          var bFlag := Push(m, true);
          return;
        } else if send.Error? {
          wire := [];
          finished := finished + [m.key];
          return -1;
        } else if send.Throws? {
          wire, lost := [], lost + [m.key];
          return;
        }
      }
      var bFlag := Push(m, false);
    }

    method Invoke(msg: Msg, send: Send) returns (ret: int)
      requires Valid() && (serial ==> !msg.oneWay)
      modifies this, timeoutQueue
      ensures Valid() && View() == Connection.Invoke(old(View()), serial, noSendQueueLimit, msg, send)
      ensures ret == if send.Error? && old(timeoutQueue.send) == [] && (serial ==> old(requestMsg).None?) then -1 else 0
    {
      invoked := invoked + [msg.key];
      if |timeoutQueue.send| > noSendQueueLimit {
        finished := finished + [msg.key];
        return 0;
      }
      var m := msg;
      if !m.fromRpc {
        var id := timeoutQueue.GenerateId();
        m := m.(requestId := id);
      }
      if serial {
        ret := InvokeConnectionSerial(m, send);
      } else {
        ret := InvokeConnectionParallel(m, send);
      }
    }

    method DoInvokeSerial(send: Send)
      requires Valid()
      modifies this, timeoutQueue
      ensures Valid() && View() == Connection.DoInvokeSerial(old(View()), send)
    {
      FlushSerialKeepsFiled(View(), send);
      if requestMsg.Some? || |timeoutQueue.send| == 0 { return; }
      var m := timeoutQueue.GetSend();
      if send.Error? {
        wire := [];
        requestMsg := None;
        timeoutQueue.PopSend(true);
        finished := finished + [m.key];
      } else if send.Ok? || send.Full? {
        accepted, wire := accepted + [m.key], wire + [m.key];
        requestMsg := Some(m);
        timeoutQueue.PopSend(false);
      } else if send.Throws? {
        wire := [];
      }
    }

    /** Send the oldest message, which the transport accepts. */
    method PopOldest()
      requires Valid() && timeoutQueue.send != []
      modifies this`wire, this`accepted, this`finished, timeoutQueue
      ensures Valid() && View() == SendOldest(old(View()))
    {
      SendOldestKeepsFiled(View());
      var m := timeoutQueue.GetSend();
      accepted, wire := accepted + [m.key], wire + [m.key];
      timeoutQueue.PopSend(m.oneWay);
      if m.oneWay { finished := finished + [m.key]; }
    }

    method DoInvokeParallel(sends: seq<Send>)
      requires Valid()
      modifies this, timeoutQueue
      ensures Valid() && View() == Connection.DoInvokeParallel(old(View()), sends)
    {
      var i := 0;
      while |timeoutQueue.send| > 0 && i < |sends|
        invariant i <= |sends| && Valid()
        invariant Connection.DoInvokeParallel(View(), sends[i..]) == Connection.DoInvokeParallel(old(View()), sends)
      {
        var iRet := sends[i];
        assert sends[i..][1..] == sends[i + 1..];
        if iRet.Error? || iRet.Throws? {
          wire := [];
          return;
        }
        if iRet.NotSent? { return; }
        PopOldest();
        if iRet.Full? { return; }
        i := i + 1;
      }
    }

    /** finishInvoke of a reply. In serial mode the request's erasure never fails. In parallel mode the id zero marks a
        message the peer pushes, which finishes none of ours; without a callback for those it throws. */
    method FinishInvoke(id: nat, pushCallback: bool) returns (pushed: bool, threw: bool)
      requires Valid()
      requires serial && requestMsg.Some? ==>
        && requestMsg.value.requestId in timeoutQueue.data
        && timeoutQueue.data[requestMsg.value.requestId].msg == requestMsg.value
      modifies this, timeoutQueue
      ensures Valid() && View() == Reply(old(View()), serial, id)
      ensures pushed <==> !serial && id == 0 && pushCallback
      ensures threw <==> !serial && id == 0 && !pushCallback
      ensures !serial && id != 0 && id in old(timeoutQueue.data) ==>
        && finished == old(finished) + [old(timeoutQueue.data)[id].msg.key]
        && timeoutQueue.data == old(timeoutQueue.data) - {id}
        && wire == old(wire) && accepted == old(accepted) && lost == old(lost) && requestMsg == old(requestMsg)
      ensures !serial && (id == 0 || id !in old(timeoutQueue.data)) ==> View() == old(View())
    {
      pushed, threw := false, false;
      if serial {
        if requestMsg.None? { return; }
        var retErase, m := timeoutQueue.Erase(requestMsg.value.requestId, NO_MSG);
        assert retErase;
        assert m == requestMsg.value;
        requestMsg := None;
        finished := finished + [m.key];
      } else if id == 0 {
        pushed, threw := pushCallback, !pushCallback;
      } else {
        var retErase, m := timeoutQueue.Erase(id, NO_MSG);
        if !retErase { return; }
        finished := finished + [m.key];
      }
    }

    method TimeoutOne(now: int) returns (ok: bool, id: nat)
      requires Valid()
      modifies this, timeoutQueue
      ensures Valid()
      ensures ok ==> Earliest(old(View()).queue, id) && old(timeoutQueue.data)[id].msg.deadline <= now
      ensures ok ==> View() == Expire(old(View()), id) && timeoutQueue.data == old(timeoutQueue.data) - {id}
      ensures !ok ==> View() == old(View())
      ensures !ok ==> forall j :: j in timeoutQueue.data ==> timeoutQueue.data[j].msg.deadline > now
    {
      var m;
      ok, id, m := timeoutQueue.Timeout(now, NO_MSG);
      if !ok { return; }
      if requestMsg == Some(m) {
        requestMsg := None;
        wire := [];
      }
      finished := finished + [m.key];
    }

    /** Everything past its deadline is taken out and finished, earliest deadline first, and nothing else; the request
        among it only with its connection closed. */
    method DoTimeout(now: int) returns (ghost ids: seq<nat>)
      requires Valid()
      modifies this, timeoutQueue
      ensures Valid() && View() == ExpireAll(old(View()), ids)
      ensures OnlyLater(timeoutQueue.data, old(timeoutQueue.data), now)
      ensures InDeadlineOrder(old(timeoutQueue.data), ids)
      ensures forall id :: id in ids <==> id in old(timeoutQueue.data) && old(timeoutQueue.data)[id].msg.deadline <= now
      ensures finished == old(finished) + KeysOf(old(timeoutQueue.data), ids)
    {
      ids := [];
      ghost var was, data := View(), timeoutQueue.data;
      var more := true;
      while more
        invariant Valid() && View() == ExpireAll(was, ids)
        invariant OnlyDueGone(timeoutQueue.data, data, now) && GoneInOrder(timeoutQueue.data, data, ids)
        invariant !more ==> forall id :: id in timeoutQueue.data ==> timeoutQueue.data[id].msg.deadline > now
        decreases |timeoutQueue.data| + if more then 1 else 0
      {
        ghost var before := timeoutQueue.data;
        var id;
        more, id := TimeoutOne(now);
        if more {
          Fewer(before, id);
          ExpireOneMore(was, ids, id);
          OneMoreGone(before, data, ids, id);
          ids := ids + [id];
        }
      }
      ExpiredAreFinished(was, ids);
    }
  }

  ghost predicate InDeadlineOrder(data: map<nat, Entry<Msg>>, ids: seq<nat>) {
    && (forall i :: 0 <= i < |ids| ==> ids[i] in data)
    && forall i, j :: 0 <= i < j < |ids| ==> data[ids[i]].deadline <= data[ids[j]].deadline
  }

  /** These messages are gone, earliest deadline first, and what is left is due no earlier. */
  ghost predicate GoneInOrder(data: map<nat, Entry<Msg>>, before: map<nat, Entry<Msg>>, ids: seq<nat>) {
    && InDeadlineOrder(before, ids) && NoRepeats(ids)
    && (forall id :: id in data <==> id in before && id !in ids)
    && (forall id :: id in data ==> data[id] == before[id])
    && forall i, id :: 0 <= i < |ids| && id in data ==> before[ids[i]].deadline <= data[id].deadline
  }

  lemma OneMoreGone(data: map<nat, Entry<Msg>>, before: map<nat, Entry<Msg>>, ids: seq<nat>, id: nat)
    requires GoneInOrder(data, before, ids) && id in data
    requires forall j :: j in data ==> data[id].deadline <= data[j].deadline
    ensures GoneInOrder(data - {id}, before, ids + [id])
  {
  }

  lemma Fewer(data: map<nat, Entry<Msg>>, id: nat)
    requires id in data
    ensures |data - {id}| < |data|
  {
    assert (data - {id}).Keys == data.Keys - {id};
  }
}
