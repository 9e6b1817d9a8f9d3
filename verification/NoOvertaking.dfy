/**
 No request overtakes another on the way to the transport: the requests it accepted, followed by those still unsent, are
 in the order in which invoke received them, across direct sends, queued sends, full buffers, errors and timeouts.
 */
module NoOvertaking {
  import opened Collections
  import opened TimeoutQueue
  import opened Connection

  /** s is what is left of t after striking some of its elements. */
  ghost predicate IsSub(s: seq<nat>, t: seq<nat>)
    decreases |t|
  {
    s == [] || (t != [] && (
      || (s[|s| - 1] == t[|t| - 1] && IsSub(s[..|s| - 1], t[..|t| - 1]))
      || IsSub(s, t[..|t| - 1])))
  }

  lemma SubOfLonger(s: seq<nat>, t: seq<nat>, x: nat)
    requires IsSub(s, t)
    ensures IsSub(s, t + [x]) && IsSub(s + [x], t + [x])
  {
    assert (t + [x])[..|t|] == t && (s + [x])[..|s|] == s;
  }

  lemma {:induction false} SubWithout(a: seq<nat>, x: nat, b: seq<nat>, t: seq<nat>)
    requires IsSub(a + [x] + b, t)
    ensures IsSub(a + b, t)
    decreases |t|
  {
    var s, t' := a + [x] + b, t[..|t| - 1];
    if IsSub(s, t') {
      SubWithout(a, x, b, t');
    } else if b == [] {
      assert s[..|s| - 1] == a && a + b == a;
    } else {
      var b' := b[..|b| - 1];
      assert s[..|s| - 1] == a + [x] + b';
      SubWithout(a, x, b', t');
      assert (a + b)[..|a + b| - 1] == a + b';
    }
  }

  /** The keys of the unsent messages, oldest first. */
  function Unsent(q: Queue<Msg>): (r: seq<nat>)
    ensures |r| == |q.send|
  {
    seq(|q.send|, i requires 0 <= i < |q.send| => if q.send[i] in q.data then q.data[q.send[i]].msg.key else 0)
  }

  lemma UnsentAfterPush(q: Queue<Msg>, m: Msg, hasSend: bool)
    requires ValidQueue(q) && m.requestId !in q.data
    ensures Unsent(Pushed(q, m.requestId, m, m.deadline, hasSend)) == Unsent(q) + if hasSend then [] else [m.key]
  {
    forall i | 0 <= i < |q.send| ensures q.send[i] != m.requestId { assert q.send[i] in q.send; }
  }

  lemma UnsentAfterPop(q: Queue<Msg>, del: bool)
    requires ValidQueue(q) && q.send != []
    ensures q.send[0] in q.data
    ensures Unsent(q) == [q.data[q.send[0]].msg.key] + Unsent(Popped(q, del))
  {
    assert q.send[0] in q.send;
    forall i | 0 < i < |q.send| ensures q.send[i] != q.send[0] && q.send[i] in q.data { assert q.send[i] in q.send; }
  }

  lemma {:induction false} WithoutSplits(s: seq<nat>, i: nat)
    requires NoRepeats(s) && i < |s|
    ensures Without(s, s[i]) == s[..i] + s[i + 1..]
  {
    var n := |s| - 1;
    if i == n {
      assert s[i + 1..] == [];
    } else {
      WithoutSplits(s[..n], i);
      assert s[..n][..i] == s[..i] && s[..n][i] == s[i];
      assert s[i + 1..] == s[..n][i + 1..] + [s[n]];
    }
  }

  lemma Regroup(accepted: seq<nat>, u: seq<nat>, i: nat)
    requires i < |u|
    ensures accepted + u == accepted + u[..i] + [u[i]] + u[i + 1..]
    ensures accepted + u[..i] + u[i + 1..] == accepted + (u[..i] + u[i + 1..])
  {
  }

  lemma SubWithoutAt(accepted: seq<nat>, u: seq<nat>, i: nat, t: seq<nat>)
    requires i < |u| && IsSub(accepted + u, t)
    ensures IsSub(accepted + (u[..i] + u[i + 1..]), t)
  {
    Regroup(accepted, u, i);
    SubWithout(accepted + u[..i], u[i], u[i + 1..], t);
  }

  lemma UnsentAfterEraseAt(q: Queue<Msg>, i: nat)
    requires ValidQueue(q) && i < |q.send| && q.send[i] in q.data
    ensures Unsent(Erased(q, q.send[i])) == Unsent(q)[..i] + Unsent(q)[i + 1..]
  {
    var id := q.send[i];
    assert id in q.send;
    WithoutSplits(q.send, i);
    var r, u := Erased(q, id), Unsent(q);
    forall j | 0 <= j < |r.send| ensures Unsent(r)[j] == (u[..i] + u[i + 1..])[j] {
      var k := if j < i then j else j + 1;
      assert r.send[j] == q.send[k] && q.send[k] in q.send && q.send[k] != id;
    }
  }

  lemma UnsentAfterErase(q: Queue<Msg>, id: nat, t: seq<nat>, accepted: seq<nat>)
    requires ValidQueue(q) && id in q.data && IsSub(accepted + Unsent(q), t)
    ensures IsSub(accepted + Unsent(Erased(q, id)), t)
  {
    if q.data[id].hasSend {
      forall i | 0 <= i < |q.send| ensures q.send[i] != id { assert q.send[i] in q.send; }
      assert Unsent(Erased(q, id)) == Unsent(q);
    } else {
      assert id in q.send;
      var i :| 0 <= i < |q.send| && q.send[i] == id;
      UnsentAfterEraseAt(q, i);
      SubWithoutAt(accepted, Unsent(q), i, t);
    }
  }

  ghost predicate InOrder(a: Adapter) {
    ValidQueue(a.queue) && IsSub(a.accepted + Unsent(a.queue), a.invoked)
  }

  /** The newest message is not placed yet, the others are in order. */
  ghost predicate InOrderBut(a: Adapter, m: Msg) {
    && ValidQueue(a.queue) && a.invoked != [] && a.invoked[|a.invoked| - 1] == m.key
    && IsSub(a.accepted + Unsent(a.queue), a.invoked[..|a.invoked| - 1])
  }

  lemma NewestGoesLast(a: Adapter, m: Msg)
    requires InOrderBut(a, m)
    ensures IsSub(a.accepted + Unsent(a.queue), a.invoked)
    ensures IsSub(a.accepted + Unsent(a.queue) + [m.key], a.invoked)
  {
    var before := a.invoked[..|a.invoked| - 1];
    assert a.invoked == before + [m.key];
    SubOfLonger(a.accepted + Unsent(a.queue), before, m.key);
  }

  lemma QueuedInOrder(a: Adapter, m: Msg)
    requires InOrderBut(a, m)
    ensures InOrder(Enqueue(a, m, false))
  {
    NewestGoesLast(a, m);
    if m.requestId !in a.queue.data {
      PushKeeps(a.queue, m.requestId, m, m.deadline, false);
      UnsentAfterPush(a.queue, m, false);
      assert a.accepted + Unsent(a.queue) + [m.key] == a.accepted + (Unsent(a.queue) + [m.key]);
    }
  }

  lemma AcceptedAtOnceInOrder(a: Adapter, m: Msg)
    requires InOrderBut(a, m) && a.queue.send == []
    ensures InOrder(Accept(a, m))
  {
    NewestGoesLast(a, m);
    assert Unsent(a.queue) == [];
    assert a.accepted + Unsent(a.queue) + [m.key] == a.accepted + [m.key] + Unsent(a.queue);
  }

  lemma SentStaysInOrder(a: Adapter, m: Msg)
    requires InOrder(a)
    ensures InOrder(Enqueue(a, m, true))
  {
    if m.requestId !in a.queue.data {
      PushKeeps(a.queue, m.requestId, m, m.deadline, true);
      UnsentAfterPush(a.queue, m, true);
      assert Unsent(a.queue) + [] == Unsent(a.queue);
    }
  }

  lemma Placed(a: Adapter, m: Msg)
    requires InOrderBut(a, m)
    ensures InOrder(a) && InOrder(Enqueue(a, m, false))
    ensures a.queue.send == [] ==> InOrder(Accept(a, m)) && InOrder(Enqueue(Accept(a, m), m, true))
  {
    NewestGoesLast(a, m);
    QueuedInOrder(a, m);
    if a.queue.send == [] {
      AcceptedAtOnceInOrder(a, m);
      SentStaysInOrder(Accept(a, m), m);
    }
  }

  lemma InvokeKeepsOrder(a: Adapter, serial: bool, limit: nat, m: Msg, send: Send)
    requires InOrder(a)
    ensures InOrder(Invoke(a, serial, limit, m, send))
  {
    var a1 := a.(invoked := a.invoked + [m.key]);
    assert a1.invoked[..|a1.invoked| - 1] == a.invoked;
    var m2 := if m.fromRpc then m else m.(requestId := NextId(a1.uniqId));
    var a2 := if m.fromRpc then a1 else a1.(uniqId := m2.requestId);
    assert InOrderBut(a1, m) && InOrderBut(a2, m2);
    Placed(a1, m);
    if serial { InvokeSerialKeepsOrder(a2, m2, send); } else { InvokeParallelKeepsOrder(a2, m2, send); }
  }

  lemma InvokeParallelKeepsOrder(a: Adapter, m: Msg, send: Send)
    requires InOrderBut(a, m)
    ensures InOrder(InvokeParallel(a, m, send))
  {
    Placed(a, m);
  }

  lemma InvokeSerialKeepsOrder(a: Adapter, m: Msg, send: Send)
    requires InOrderBut(a, m)
    ensures InOrder(InvokeSerial(a, m, send))
  {
    var m' := m.(requestId := NextId(a.uniqId));
    var a' := a.(uniqId := m'.requestId);
    assert InOrderBut(a', m');
    Placed(a', m');
  }

  lemma SendOldestKeepsOrder(a: Adapter)
    requires InOrder(a) && a.queue.send != []
    ensures InOrder(SendOldest(a))
  {
    var m := Oldest(a);
    UnsentAfterPop(a.queue, m.oneWay);
    var rest := Unsent(Popped(a.queue, m.oneWay));
    assert a.accepted + ([m.key] + rest) == a.accepted + [m.key] + rest;
  }

  lemma {:induction false} FlushKeepsOrder(a: Adapter, sends: seq<Send>)
    requires InOrder(a)
    ensures InOrder(DoInvokeParallel(a, sends))
    decreases |sends|
  {
    if a.queue.send != [] && sends != [] {
      SendOldestKeepsOrder(a);
      if sends[0].Ok? { FlushKeepsOrder(SendOldest(a), sends[1..]); }
    }
  }

  lemma FlushSerialKeepsOrder(a: Adapter, send: Send)
    requires InOrder(a)
    ensures InOrder(DoInvokeSerial(a, send))
  {
    if a.queue.send != [] {
      var m := Oldest(a);
      PopKeeps(a.queue, false);
      PopKeeps(a.queue, true);
      UnsentAfterPop(a.queue, false);
      UnsentAfterPop(a.queue, true);
      var u := Unsent(a.queue);
      assert a.accepted + ([m.key] + u[1..]) == a.accepted + [m.key] + u[1..];
      SubWithout(a.accepted, m.key, u[1..], a.invoked);
    }
  }

  lemma StepKeepsOrder(a: Adapter, serial: bool, limit: nat, step: Step)
    requires InOrder(a) && Enabled(a, serial, step)
    ensures InOrder(Do(a, serial, limit, step))
  {
    match step {
      case DoesInvoke(m, send) => InvokeKeepsOrder(a, serial, limit, m, send);
      case Flushes(sends) =>
        if serial {
          FlushSerialKeepsOrder(a, if sends == [] then NotSent else sends[0]);
        } else {
          FlushKeepsOrder(a, sends);
        }
      case Answers(id) =>
        var at := if serial && a.request.Some? then a.request.value.requestId else id;
        if at in a.queue.data {
          EraseKeeps(a.queue, at);
          UnsentAfterErase(a.queue, at, a.invoked, a.accepted);
        }
      case Closes =>
      case Expires(id) =>
        EraseKeeps(a.queue, id);
        UnsentAfterErase(a.queue, id, a.invoked, a.accepted);
    }
  }

  lemma {:induction false} RunsKeepOrder(a: Adapter, serial: bool, limit: nat, steps: seq<Step>)
    requires Ledger(a) && InOrder(a) && Legal(a, serial, limit, steps)
    ensures InOrder(Final(a, serial, limit, steps))
    decreases |steps|
  {
    if steps != [] {
      StepKeepsLedger(a, serial, limit, steps[0]);
      StepKeepsOrder(a, serial, limit, steps[0]);
      RunsKeepOrder(Do(a, serial, limit, steps[0]), serial, limit, steps[1..]);
    }
  }

  lemma {:induction false} SubOfFront(a: seq<nat>, b: seq<nat>, t: seq<nat>)
    requires IsSub(a + b, t)
    ensures IsSub(a, t)
    decreases |b|
  {
    if b == [] {
      assert a + b == a;
    } else {
      var b' := b[..|b| - 1];
      assert a + b == a + b' + [b[|b| - 1]] + [];
      SubWithout(a + b', b[|b| - 1], [], t);
      assert a + b' + [] == a + b';
      SubOfFront(a, b', t);
    }
  }

  /** In every run, in either mode, the transport accepts requests in the order in which invoke received them. */
  lemma AcceptedInOrder(serial: bool, limit: nat, steps: seq<Step>)
    requires Legal(FRESH, serial, limit, steps)
    ensures var a := Final(FRESH, serial, limit, steps);
      IsSub(a.accepted, a.invoked) && IsSub(a.accepted + Unsent(a.queue), a.invoked)
  {
    RunsKeepOrder(FRESH, serial, limit, steps);
    var a := Final(FRESH, serial, limit, steps);
    SubOfFront(a.accepted, Unsent(a.queue), a.invoked);
  }
}
