/**
 TC_TimeoutQueueNew: messages by id, each with a deadline, and a list of those not yet sent. The queue proper is a
 value, here with its operations; the class at the end keeps it together with the list ordered by deadline.
 */
module TimeoutQueue {
  import opened Collections

  datatype Entry<M> = Entry(msg: M, hasSend: bool, deadline: int)

  /** `send` lists the ids of the unsent messages, oldest first. */
  datatype Queue<M> = Queue(data: map<nat, Entry<M>>, send: seq<nat>)

  /** The list holds exactly the unsent messages, each once. */
  ghost predicate ValidQueue<M>(q: Queue<M>) {
    && NoRepeats(q.send)
    && (forall id :: id in q.send ==> id in q.data && !q.data[id].hasSend)
    && (forall id :: id in q.data && !q.data[id].hasSend ==> id in q.send)
  }

  function Without(s: seq<nat>, id: nat): (r: seq<nat>)
    ensures |r| <= |s| && (id !in s ==> r == s) && (id in s ==> |r| < |s|)
    ensures forall x :: x in r ==> x in s
  {
    if s == [] then []
    else if s[|s| - 1] == id then s[..|s| - 1]
    else
      assert s == s[..|s| - 1] + [s[|s| - 1]];
      Without(s[..|s| - 1], id) + [s[|s| - 1]]
  }

  lemma {:induction false} WithoutHas(s: seq<nat>, id: nat)
    requires NoRepeats(s)
    ensures NoRepeats(Without(s, id))
    ensures forall x :: x in Without(s, id) <==> x in s && x != id
  {
    if s != [] {
      var rest, x := s[..|s| - 1], s[|s| - 1];
      WithoutHas(rest, id);
      assert s == rest + [x];
      forall i | 0 <= i < |Without(rest, id)| ensures Without(rest, id)[i] != x { assert Without(rest, id)[i] in rest; }
    }
  }

  function Pushed<M>(q: Queue<M>, id: nat, m: M, deadline: int, hasSend: bool): Queue<M>
    requires id !in q.data
  {
    Queue(q.data[id := Entry(m, hasSend, deadline)], if hasSend then q.send else q.send + [id])
  }

  function Erased<M>(q: Queue<M>, id: nat): Queue<M>
    requires id in q.data
  {
    Queue(q.data - {id}, if q.data[id].hasSend then q.send else Without(q.send, id))
  }

  function Popped<M>(q: Queue<M>, del: bool): Queue<M>
    requires q.send != [] && q.send[0] in q.data
  {
    var id := q.send[0];
    Queue(if del then q.data - {id} else q.data[id := q.data[id].(hasSend := true)], q.send[1..])
  }

  lemma PushKeeps<M>(q: Queue<M>, id: nat, m: M, deadline: int, hasSend: bool)
    requires ValidQueue(q) && id !in q.data
    ensures ValidQueue(Pushed(q, id, m, deadline, hasSend))
  {
  }

  lemma EraseKeeps<M>(q: Queue<M>, id: nat)
    requires ValidQueue(q) && id in q.data
    ensures ValidQueue(Erased(q, id))
  {
    WithoutHas(q.send, id);
  }

  lemma PopKeeps<M>(q: Queue<M>, del: bool)
    requires ValidQueue(q) && q.send != []
    ensures q.send[0] in q.data && ValidQueue(Popped(q, del))
  {
    var id := q.send[0];
    assert q.send == [id] + q.send[1..];
    assert id in q.send;
  }

  /** Nothing in the queue is due before this one. */
  ghost predicate Earliest<M>(q: Queue<M>, id: nat) {
    id in q.data && forall j :: j in q.data ==> q.data[id].deadline <= q.data[j].deadline
  }

  // ---- ids

  /** Ids are 32 bits wide, wrap around and skip zero. */
  function NextId(id: nat): (r: nat)
    ensures id < 0x1_0000_0000 ==> 0 < r < 0x1_0000_0000
  {
    if id + 1 == 0x1_0000_0000 then 1 else id + 1
  }

  /** The id issued n times after this one. */
  function IdAfter(id: nat, n: nat): nat {
    if n == 0 then id else NextId(IdAfter(id, n - 1))
  }

  const ID_CYCLE: nat := 0xFFFF_FFFF

  lemma {:induction false} IdsGoRound(id: nat, n: nat)
    requires 0 < id <= ID_CYCLE && n <= ID_CYCLE
    ensures IdAfter(id, n) == if id + n <= ID_CYCLE then id + n else id + n - ID_CYCLE
  {
    if n > 0 { IdsGoRound(id, n - 1); }
  }

  /** All 2^32 - 1 ids are issued before one comes again. */
  lemma IdsDiffer(id: nat, i: nat, j: nat)
    requires 0 < id <= ID_CYCLE && i < j <= ID_CYCLE
    ensures IdAfter(id, i) == IdAfter(id, j) <==> i == 0 && j == ID_CYCLE
  {
    IdsGoRound(id, i);
    IdsGoRound(id, j);
  }

  // ---- the object

  ghost predicate Ascending<M>(data: map<nat, Entry<M>>, time: seq<nat>) {
    && (forall i :: 0 <= i < |time| ==> time[i] in data)
    && forall i, j :: 0 <= i < j < |time| ==> data[time[i]].deadline <= data[time[j]].deadline
  }

  ghost predicate InOrder<M>(data: map<nat, Entry<M>>, time: seq<nat>) {
    Ascending(data, time) && forall id :: id in time <==> id in data
  }

  /** Where std::multimap puts a new deadline: behind the equal ones. */
  method PlaceFor<M>(data: map<nat, Entry<M>>, time: seq<nat>, deadline: int) returns (k: nat)
    requires InOrder(data, time)
    ensures k <= |time|
    ensures forall i :: 0 <= i < k ==> data[time[i]].deadline <= deadline
    ensures forall i :: k <= i < |time| ==> deadline < data[time[i]].deadline
  {
    k := |time|;
    while k > 0 && deadline < data[time[k - 1]].deadline
      invariant k <= |time|
      invariant forall i :: k <= i < |time| ==> deadline < data[time[i]].deadline
    {
      k := k - 1;
    }
    forall i | 0 <= i < k ensures data[time[i]].deadline <= deadline {
      assert i < k - 1 ==> data[time[i]].deadline <= data[time[k - 1]].deadline;
    }
  }

  lemma {:induction false} WithoutAscends<M>(data: map<nat, Entry<M>>, time: seq<nat>, id: nat)
    requires Ascending(data, time)
    ensures Ascending(data, Without(time, id))
  {
    if time != [] && time[|time| - 1] != id {
      var n := |time| - 1;
      WithoutAscends(data, time[..n], id);
      var r := Without(time[..n], id);
      forall i | 0 <= i < |r| ensures data[r[i]].deadline <= data[time[n]].deadline {
        assert r[i] in time[..n];
        var k :| 0 <= k < n && time[k] == r[i];
      }
    }
  }

  lemma RemovedInOrder<M>(data: map<nat, Entry<M>>, time: seq<nat>, id: nat)
    requires InOrder(data, time) && NoRepeats(time)
    ensures InOrder(data - {id}, Without(time, id)) && NoRepeats(Without(time, id))
  {
    WithoutHas(time, id);
    WithoutAscends(data, time, id);
    var r := Without(time, id);
    forall i | 0 <= i < |r| ensures r[i] in data - {id} { assert r[i] in r; }
  }

  function InsertAt(time: seq<nat>, k: nat, id: nat): (r: seq<nat>)
    requires k <= |time|
    ensures |r| == |time| + 1
    ensures forall i :: 0 <= i < |r| ==> r[i] == if i < k then time[i] else if i == k then id else time[i - 1]
  {
    time[..k] + [id] + time[k..]
  }

  lemma InsertedHas(time: seq<nat>, k: nat, id: nat)
    requires k <= |time|
    ensures forall x :: x in InsertAt(time, k, id) <==> x in time || x == id
  {
    assert time == time[..k] + time[k..];
    forall x ensures x in InsertAt(time, k, id) <==> x in time || x == id {
      assert x in time <==> x in time[..k] || x in time[k..];
    }
  }

  lemma InsertedOnce(time: seq<nat>, k: nat, id: nat)
    requires k <= |time| && NoRepeats(time) && id !in time
    ensures NoRepeats(InsertAt(time, k, id))
  {
  }

  lemma InsertedAscends<M>(data: map<nat, Entry<M>>, time: seq<nat>, id: nat, e: Entry<M>, k: nat)
    requires Ascending(data, time) && id !in time && k <= |time|
    requires forall i :: 0 <= i < k ==> data[time[i]].deadline <= e.deadline
    requires forall i :: k <= i < |time| ==> e.deadline < data[time[i]].deadline
    ensures Ascending(data[id := e], InsertAt(time, k, id))
  {
    forall i | 0 <= i < |time| ensures data[id := e][time[i]] == data[time[i]] { assert time[i] in time; }
  }

  lemma InsertedInOrder<M>(data: map<nat, Entry<M>>, time: seq<nat>, id: nat, e: Entry<M>, k: nat)
    requires InOrder(data, time) && NoRepeats(time) && id !in data && k <= |time|
    requires forall i :: 0 <= i < k ==> data[time[i]].deadline <= e.deadline
    requires forall i :: k <= i < |time| ==> e.deadline < data[time[i]].deadline
    ensures InOrder(data[id := e], InsertAt(time, k, id)) && NoRepeats(InsertAt(time, k, id))
  {
    InsertedHas(time, k, id);
    InsertedOnce(time, k, id);
    InsertedAscends(data, time, id, e, k);
  }

  class TimeoutQueueNew<M> {
    var uniqId: nat
    var data: map<nat, Entry<M>>
    var time: seq<nat>
    var send: seq<nat>

    ghost function View(): Queue<M>
      reads this
    {
      Queue(data, send)
    }

    ghost predicate Valid()
      reads this
    {
      uniqId < 0x1_0000_0000 && ValidQueue(View()) && InOrder(data, time) && NoRepeats(time)
    }

    constructor ()
      ensures Valid() && View() == Queue(map[], []) && uniqId == 0
    {
      uniqId, data, time, send := 0, map[], [], [];
    }

    method GenerateId() returns (id: nat)
      requires Valid()
      modifies this`uniqId
      ensures Valid() && id == uniqId == NextId(old(uniqId))
    {
      uniqId := if uniqId + 1 == 0x1_0000_0000 then 0 else uniqId + 1;
      if uniqId == 0 { uniqId := 1; }
      id := uniqId;
    }

    method GetSend() returns (m: M)
      requires Valid() && send != []
      ensures send[0] in data && !data[send[0]].hasSend && m == data[send[0]].msg
    {
      assert send[0] in send;
      m := data[send[0]].msg;
    }

    /** A taken id is refused, and nothing changes. */
    method Push(m: M, id: nat, deadline: int, hasSend: bool) returns (ok: bool)
      requires Valid()
      modifies this`data, this`time, this`send
      ensures Valid() && (ok <==> id !in old(data))
      ensures ok ==> View() == Pushed(old(View()), id, m, deadline, hasSend)
      ensures ok ==> id in data && data[id].msg == m && data[id].hasSend == hasSend && data[id].deadline == deadline
      ensures ok ==> data - {id} == old(data) && send == if hasSend then old(send) else old(send) + [id]
      ensures !ok ==> View() == old(View())
    {
      if id in data { return false; }
      PushKeeps(View(), id, m, deadline, hasSend);
      var k := PlaceFor(data, time, deadline);
      InsertedInOrder(data, time, id, Entry(m, hasSend, deadline), k);
      time := InsertAt(time, k, id);
      data := data[id := Entry(m, hasSend, deadline)];
      if !hasSend { send := send + [id]; }
      ok := true;
    }

    method PopSend(del: bool)
      requires Valid() && send != []
      modifies this`data, this`time, this`send
      ensures old(send[0] in data) && Valid() && View() == Popped(old(View()), del)
      ensures send == old(send)[1..] && data - {old(send)[0]} == old(data) - {old(send)[0]}
      ensures del ==> old(send)[0] !in data
      ensures !del ==> old(send)[0] in data && data[old(send)[0]] == old(data)[old(send)[0]].(hasSend := true)
    {
      PopKeeps(View(), del);
      var id := send[0];
      if del {
        RemovedInOrder(data, time, id);
        time := Without(time, id);
        data := data - {id};
      } else {
        data := data[id := data[id].(hasSend := true)];
      }
      send := send[1..];
    }

    method Remove(id: nat)
      requires Valid() && id in data
      modifies this`data, this`time, this`send
      ensures Valid() && View() == Erased(old(View()), id)
      ensures data == old(data) - {id} && forall x :: x in send <==> x in old(send) && x != id
    {
      EraseKeeps(View(), id);
      WithoutHas(send, id);
      RemovedInOrder(data, time, id);
      if !data[id].hasSend { send := Without(send, id); }
      time := Without(time, id);
      data := data - {id};
    }

    method Erase(id: nat, none: M) returns (ok: bool, m: M)
      requires Valid()
      modifies this`data, this`time, this`send
      ensures Valid() && (ok <==> id in old(data))
      ensures ok ==> m == old(data)[id].msg && View() == Erased(old(View()), id)
      ensures ok ==> data == old(data) - {id} && forall x :: x in send <==> x in old(send) && x != id
      ensures !ok ==> View() == old(View())
    {
      if id !in data { return false, none; }
      m := data[id].msg;
      Remove(id);
      ok := true;
    }

    /** Takes out the message due first, if it is due. */
    method Timeout(now: int, none: M) returns (ok: bool, id: nat, m: M)
      requires Valid()
      modifies this`data, this`time, this`send
      ensures Valid()
      ensures ok <==> exists j :: j in old(data) && old(data)[j].deadline <= now
      ensures ok ==> Earliest(old(View()), id) && old(data)[id].deadline <= now
      ensures ok ==> m == old(data)[id].msg && View() == Erased(old(View()), id)
      ensures !ok ==> View() == old(View())
    {
      ok, id, m := false, 0, none;
      if |time| == 0 {
        assert forall j :: j in data <==> j in time;
        return;
      }
      id := time[0];
      assert id in time;
      assert Earliest(View(), id) by {
        forall j | j in data ensures data[id].deadline <= data[j].deadline {
          assert j in time;
          var k :| 0 <= k < |time| && time[k] == j;
        }
      }
      if data[id].deadline > now { return; }
      m := data[id].msg;
      Remove(id);
      ok := true;
    }
  }
}
