/**
 AdapterProxy's circuit breaker: a node is blocked after failures that are frequent or make up too large a share, or
 when it cannot be connected; while blocked it is tried again from time to time. Times are seconds of the source's
 clock, an input of every operation; what the transport does is an input too.
 */
module CircuitBreaker {
  datatype CheckTimeoutInfo = CheckTimeoutInfo(
    minTimeoutInvoke: nat, checkTimeoutInterval: nat, frequenceFailInvoke: nat, minFrequenceFailTime: nat, radio: real,
    tryTimeInterval: nat, maxConnectExc: nat)

  const DEFAULTS: CheckTimeoutInfo := CheckTimeoutInfo(2, 60, 2, 5, 0.5, 10, 1)

  datatype State = State(
    active: bool, totalInvoke: nat, timeoutInvoke: nat, nextFinishInvokeTime: int,
    frequenceFailInvoke: nat, frequenceFailTime: int, nextRetryTime: int, connExc: bool, connExcCnt: nat)

  const FRESH: State := State(true, 0, 0, 0, 0, 0, 0, false, 0)

  datatype Event =
    | Finished(fail: bool, now: int)                // a reply or a timeout
    | Checked(now: int, valid: bool, throws: bool)  // checkActive; is there a connection, else does connecting throw
    | RetryReset(now: int)                          // resetRetryTime(false)
    | Blocked(now: int)                             // blocked through another adapter of the same node
    | ConnectFailed(now: int)
    | Connected(now: int)

  // ---- the operations as functions

  function Inactive(c: CheckTimeoutInfo, s: State, now: int): State {
    s.(active := false, nextRetryTime := now + c.tryTimeInterval)
  }

  /** A failure counted by an active node. */
  function Failed(c: CheckTimeoutInfo, s: State, now: int): (r: State)
    ensures r.frequenceFailInvoke == s.frequenceFailInvoke + 1
  {
    s.(totalInvoke := s.totalInvoke + 1,
       timeoutInvoke := s.timeoutInvoke + 1,
       frequenceFailTime := if s.frequenceFailInvoke == 0 then now + c.minFrequenceFailTime else s.frequenceFailTime,
       frequenceFailInvoke := s.frequenceFailInvoke + 1)
  }

  predicate TooFrequent(c: CheckTimeoutInfo, s: State, now: int) {
    s.frequenceFailInvoke >= c.frequenceFailInvoke && now >= s.frequenceFailTime
  }

  predicate TooLargeAShare(c: CheckTimeoutInfo, s: State) {
    s.timeoutInvoke >= c.minTimeoutInvoke && s.timeoutInvoke as real >= c.radio * s.totalInvoke as real
  }

  function EndOfInterval(c: CheckTimeoutInfo, s: State, fail: bool, now: int): State {
    if now <= s.nextFinishInvokeTime then s
    else
      var s := s.(nextFinishInvokeTime := now + c.checkTimeoutInterval);
      if fail && TooLargeAShare(c, s) then Inactive(c, s, now) else s.(totalInvoke := 0, timeoutInvoke := 0)
  }

  function Finish(c: CheckTimeoutInfo, s: State, fail: bool, now: int): State {
    if !s.active then
      if fail then s
      else s.(active := true, frequenceFailInvoke := 0, nextFinishInvokeTime := now + c.checkTimeoutInterval,
              totalInvoke := 1, timeoutInvoke := 0, connExc := false)
    else if fail then
      var s := Failed(c, s, now);
      if TooFrequent(c, s, now) then Inactive(c, s, now) else EndOfInterval(c, s, true, now)
    else EndOfInterval(c, s.(totalInvoke := s.totalInvoke + 1, frequenceFailInvoke := 0), false, now)
  }

  /** checkActive gets past its time guard. */
  predicate MayTry(s: State, now: int) {
    s.active || s.nextRetryTime <= now
  }

  function Check(c: CheckTimeoutInfo, s: State, now: int, valid: bool, throws: bool): State {
    if !MayTry(s, now) then s
    else
      var s := if s.active then s else s.(nextRetryTime := now + c.tryTimeInterval);
      if !valid && throws then s.(active := false) else s
  }

  function ConnExc(c: CheckTimeoutInfo, s: State, now: int): State {
    if s.connExc then s
    else
      var s := s.(connExcCnt := s.connExcCnt + 1);
      if s.connExcCnt >= c.maxConnectExc then Inactive(c, s, now).(connExc := true) else s
  }

  function Step(c: CheckTimeoutInfo, s: State, e: Event): State {
    match e
    case Finished(fail, now) => Finish(c, s, fail, now)
    case Checked(now, valid, throws) => Check(c, s, now, valid, throws)
    case RetryReset(now) => s.(nextRetryTime := now)
    case Blocked(now) => Inactive(c, s, now)
    case ConnectFailed(now) => ConnExc(c, s, now)
    case Connected(_) => s.(active := true, connExc := false, connExcCnt := 0)
  }

  // ---- the object

  class AdapterProxy {
    const info: CheckTimeoutInfo
    var activeStatus: bool
    var totalInvoke: nat
    var timeoutInvoke: nat
    var nextFinishInvokeTime: int
    var frequenceFailInvoke: nat
    var frequenceFailTime: int
    var nextRetryTime: int
    var connExc: bool
    var connExcCnt: nat

    ghost function View(): State
      reads this
    {
      State(activeStatus, totalInvoke, timeoutInvoke, nextFinishInvokeTime, frequenceFailInvoke, frequenceFailTime,
            nextRetryTime, connExc, connExcCnt)
    }

    constructor (c: CheckTimeoutInfo)
      ensures View() == FRESH && info == c
    {
      info := c;
      activeStatus, totalInvoke, timeoutInvoke, nextFinishInvokeTime := true, 0, 0, 0;
      frequenceFailInvoke, frequenceFailTime, nextRetryTime, connExc, connExcCnt := 0, 0, 0, false, 0;
    }

    method FinishInvoke(fail: bool, now: int)
      modifies this
      ensures View() == Step(info, old(View()), Finished(fail, now))
    {
      if !activeStatus {
        if !fail {
          activeStatus := true;
          frequenceFailInvoke := 0;
          nextFinishInvokeTime := now + info.checkTimeoutInterval;
          totalInvoke := 1;
          timeoutInvoke := 0;
          connExc := false;
        }
        return;
      }
      totalInvoke := totalInvoke + 1;
      if fail {
        timeoutInvoke := timeoutInvoke + 1;
        if frequenceFailInvoke == 0 { frequenceFailTime := now + info.minFrequenceFailTime; }
        frequenceFailInvoke := frequenceFailInvoke + 1;
        if frequenceFailInvoke >= info.frequenceFailInvoke && now >= frequenceFailTime {
          SetInactive(now);
          return;
        }
      } else {
        frequenceFailInvoke := 0;
      }
      if now > nextFinishInvokeTime {
        nextFinishInvokeTime := now + info.checkTimeoutInterval;
        if fail && timeoutInvoke >= info.minTimeoutInvoke
           && timeoutInvoke as real >= info.radio * totalInvoke as real {
          SetInactive(now);
        } else {
          totalInvoke := 0;
          timeoutInvoke := 0;
        }
      }
    }

    method ResetRetryTime(next: bool, now: int)
      modifies this`nextRetryTime
      ensures nextRetryTime == if next then now + info.tryTimeInterval else now
    {
      nextRetryTime := if next then now + info.tryTimeInterval else now;
    }

    method SetInactive(now: int)
      modifies this`activeStatus, this`nextRetryTime
      ensures View() == Step(info, old(View()), Blocked(now))
    {
      activeStatus := false;
      ResetRetryTime(true, now);
    }

    /** `connected` and `connecting` are the transport's state afterwards. */
    method CheckActive(hash: bool, now: int, valid: bool, throws: bool, connected: bool, connecting: bool)
      returns (usable: bool, attempted: bool)
      modifies this`activeStatus, this`nextRetryTime
      ensures View() == Step(info, old(View()), Checked(now, valid, throws))
      ensures attempted <==> MayTry(old(View()), now) && !valid
      ensures usable <==> MayTry(old(View()), now) && (connected || (hash && activeStatus && connecting))
    {
      if !activeStatus && now < nextRetryTime { return false, false; }
      if !activeStatus { ResetRetryTime(true, now); }
      attempted := !valid;
      if attempted && throws { activeStatus := false; }
      usable := if hash && activeStatus then connected || connecting else connected;
    }

    method AddConnExc(exc: bool, now: int)
      modifies this`activeStatus, this`nextRetryTime, this`connExc, this`connExcCnt
      ensures View() == Step(info, old(View()), if exc then ConnectFailed(now) else Connected(now))
    {
      if exc {
        if !connExc {
          connExcCnt := connExcCnt + 1;
          if connExcCnt >= info.maxConnectExc {
            SetInactive(now);
            connExc := true;
          }
        }
      } else {
        connExc := false;
        connExcCnt := 0;
        if !activeStatus { activeStatus := true; }
      }
    }
  }

  // ---- histories

  /** The state after the first n events. */
  function After(c: CheckTimeoutInfo, es: seq<Event>, n: nat): State
    requires n <= |es|
  {
    if n == 0 then FRESH else Step(c, After(c, es, n - 1), es[n - 1])
  }

  lemma {:induction false} TimeoutsAtMostTotal(c: CheckTimeoutInfo, es: seq<Event>, n: nat)
    requires n <= |es|
    ensures After(c, es, n).timeoutInvoke <= After(c, es, n).totalInvoke
  {
    if n > 0 {
      TimeoutsAtMostTotal(c, es, n - 1);
      StepKeepsTimeouts(c, After(c, es, n - 1), es[n - 1]);
    }
  }

  lemma StepKeepsTimeouts(c: CheckTimeoutInfo, s: State, e: Event)
    requires s.timeoutInvoke <= s.totalInvoke
    ensures Step(c, s, e).timeoutInvoke <= Step(c, s, e).totalInvoke
  {
  }

  /** Event k is a failure that counts: the node was active. */
  predicate Counted(c: CheckTimeoutInfo, es: seq<Event>, k: nat)
    requires k < |es|
  {
    es[k].Finished? && es[k].fail && After(c, es, k).active
  }

  /** The counted failures among events i to n - 1. */
  function CountedIn(c: CheckTimeoutInfo, es: seq<Event>, i: nat, n: nat): nat
    requires i <= n <= |es|
  {
    if i == n then 0 else CountedIn(c, es, i, n - 1) + if Counted(c, es, n - 1) then 1 else 0
  }

  /** Events i to n - 1 start with a counted failure and hold no success: a streak of failures. */
  predicate Streak(c: CheckTimeoutInfo, es: seq<Event>, i: nat, n: nat)
    requires i < n <= |es|
  {
    Counted(c, es, i) && forall k :: i <= k < n && es[k].Finished? ==> es[k].fail
  }

  /** Blocking, retrying and reconnecting leave the streak as it is: its length is the failure count, its first failure
      fixes the time before which the frequency rule will not act. */
  lemma {:induction false} CountIsStreak(c: CheckTimeoutInfo, es: seq<Event>, n: nat) returns (i: nat)
    requires n <= |es|
    ensures var s := After(c, es, n);
      s.frequenceFailInvoke > 0 ==>
        && i < n && Streak(c, es, i, n) && CountedIn(c, es, i, n) == s.frequenceFailInvoke
        && s.frequenceFailTime == es[i].now + c.minFrequenceFailTime
  {
    i := 0;
    if n > 0 {
      i := CountIsStreak(c, es, n - 1);
      if After(c, es, n - 1).frequenceFailInvoke == 0 {
        i := n - 1;
        assert CountedIn(c, es, i, i) == 0;
      }
    }
  }

  /** The frequency rule blocks the node on event n. */
  predicate BlockedByFrequency(c: CheckTimeoutInfo, es: seq<Event>, n: nat)
    requires n < |es|
  {
    Counted(c, es, n) && TooFrequent(c, Failed(c, After(c, es, n), es[n].now), es[n].now)
  }

  /** It does so only at the end of a streak that holds enough counted failures and lasted long enough. */
  lemma FrequencyRuleNeedsAStreak(c: CheckTimeoutInfo, es: seq<Event>, n: nat) returns (i: nat)
    requires n < |es| && BlockedByFrequency(c, es, n)
    ensures i <= n && Streak(c, es, i, n + 1)
    ensures CountedIn(c, es, i, n + 1) >= c.frequenceFailInvoke
    ensures es[n].now >= es[i].now + c.minFrequenceFailTime
    ensures !After(c, es, n + 1).active
  {
    i := CountIsStreak(c, es, n);
    if After(c, es, n).frequenceFailInvoke == 0 {
      i := n;
      assert CountedIn(c, es, n, n) == 0;
    }
  }

  /** With the default settings: two failures at least, five seconds or more apart. */
  lemma OneFailureNeverBlocks(es: seq<Event>, n: nat) returns (i: nat)
    requires n < |es| && BlockedByFrequency(DEFAULTS, es, n)
    ensures i < n && Counted(DEFAULTS, es, i) && es[n].now >= es[i].now + 5
  {
    i := FrequencyRuleNeedsAStreak(DEFAULTS, es, n);
  }

  predicate Succeeds(e: Event) {
    e.Finished? && !e.fail
  }

  /** Where the present streak started: its first counted failure since the last success; n if there is none. */
  function StreakStart(c: CheckTimeoutInfo, es: seq<Event>, n: nat): (i: nat)
    requires n <= |es|
    ensures i <= n
  {
    if n == 0 || Succeeds(es[n - 1]) then n
    else
      var i := StreakStart(c, es, n - 1);
      if i == n - 1 && !Counted(c, es, n - 1) then n else i
  }

  lemma FrequencyStep(c: CheckTimeoutInfo, s: State, r: State, e: Event)
    requires r == Step(c, s, e)
    ensures Succeeds(e) ==> r.frequenceFailInvoke == 0
    ensures e.Finished? && e.fail && s.active ==> r.frequenceFailInvoke == s.frequenceFailInvoke + 1
    ensures e.Finished? && e.fail && s.active ==>
      r.frequenceFailTime == if s.frequenceFailInvoke == 0 then e.now + c.minFrequenceFailTime else s.frequenceFailTime
    ensures !Succeeds(e) && !(e.Finished? && e.fail && s.active) ==>
      r.frequenceFailInvoke == s.frequenceFailInvoke && r.frequenceFailTime == s.frequenceFailTime
  {
  }

  /** The failure count is that of the counted failures since the streak started, and the fail time belongs to its
      first. */
  lemma {:induction false} CountsTheStreak(c: CheckTimeoutInfo, es: seq<Event>, n: nat)
    requires n <= |es|
    ensures var s, i := After(c, es, n), StreakStart(c, es, n);
      && s.frequenceFailInvoke == CountedIn(c, es, i, n)
      && (i < n ==> Counted(c, es, i) && s.frequenceFailInvoke > 0
                    && s.frequenceFailTime == es[i].now + c.minFrequenceFailTime)
  {
    if n > 0 {
      CountsTheStreak(c, es, n - 1);
      FrequencyStep(c, After(c, es, n - 1), After(c, es, n), es[n - 1]);
      assert CountedIn(c, es, n, n) == 0 && CountedIn(c, es, n - 1, n - 1) == 0;
    }
  }

  // ---- the share of failures in a window

  /** A success brings a blocked node back. */
  predicate Revives(c: CheckTimeoutInfo, es: seq<Event>, k: nat)
    requires k < |es|
  {
    Succeeds(es[k]) && !After(c, es, k).active
  }

  /** Event k is a reply of an active node, not blocked by frequency, behind the end of the window. */
  predicate EndsWindow(c: CheckTimeoutInfo, es: seq<Event>, k: nat)
    requires k < |es|
    decreases k, 1
  {
    es[k].Finished? && After(c, es, k).active && !FrequencyDue(c, es, k) && es[k].now > WindowEnd(c, es, k)
  }

  /** When the window ends: an interval after the last event that ended one or brought the node back. */
  function WindowEnd(c: CheckTimeoutInfo, es: seq<Event>, n: nat): int
    requires n <= |es|
    decreases n, 0
  {
    if n == 0 then 0
    else if Revives(c, es, n - 1) || EndsWindow(c, es, n - 1) then es[n - 1].now + c.checkTimeoutInterval
    else WindowEnd(c, es, n - 1)
  }

  /** Where counting starts: with the reply that brought the node back, or behind the last that ended a window without
      blocking the node. */
  function WindowStart(c: CheckTimeoutInfo, es: seq<Event>, n: nat): (i: nat)
    requires n <= |es|
    ensures i <= n
    decreases n, 0
  {
    if n == 0 then 0
    else if Revives(c, es, n - 1) then n - 1
    else if EndsWindow(c, es, n - 1) && !ShareDue(c, es, n - 1) then n
    else WindowStart(c, es, n - 1)
  }

  /** The replies that count among events i to n - 1: those of an active node, and one that brings it back. */
  function RepliesIn(c: CheckTimeoutInfo, es: seq<Event>, i: nat, n: nat): nat
    requires i <= n <= |es|
  {
    if i == n then 0
    else RepliesIn(c, es, i, n - 1) +
         if es[n - 1].Finished? && (After(c, es, n - 1).active || Succeeds(es[n - 1])) then 1 else 0
  }

  /** The frequency rule, told from the events: with event k the streak has enough failures and lasted long enough. */
  predicate FrequencyDue(c: CheckTimeoutInfo, es: seq<Event>, k: nat)
    requires k < |es|
  {
    && Counted(c, es, k)
    && var i := StreakStart(c, es, k + 1);
    && i <= k
    && CountedIn(c, es, i, k + 1) >= c.frequenceFailInvoke && es[k].now >= es[i].now + c.minFrequenceFailTime
  }

  /** So many failures among so many replies are enough, and too large a share. */
  predicate IsLargeShare(c: CheckTimeoutInfo, failures: nat, replies: nat) {
    failures >= c.minTimeoutInvoke && failures as real >= c.radio * replies as real
  }

  /** The share rule, told from the events: a failure behind the end of the window, and the failures since counting
      started are enough and a large enough share of the replies. */
  predicate ShareDue(c: CheckTimeoutInfo, es: seq<Event>, k: nat)
    requires k < |es|
    decreases k, 2
  {
    && Counted(c, es, k) && EndsWindow(c, es, k)
    && var i := WindowStart(c, es, k);
       IsLargeShare(c, CountedIn(c, es, i, k + 1), RepliesIn(c, es, i, k + 1))
  }

  lemma FrequencyRule(c: CheckTimeoutInfo, es: seq<Event>, k: nat)
    requires k < |es|
    ensures BlockedByFrequency(c, es, k) <==> FrequencyDue(c, es, k)
    ensures FrequencyDue(c, es, k) ==> !After(c, es, k + 1).active
  {
    CountsTheStreak(c, es, k);
    assert CountedIn(c, es, k, k) == 0;
  }

  /** The counters of this state are those of the replies and counted failures since counting started, and its next time
      is the end of the window. */
  predicate CountsWindow(c: CheckTimeoutInfo, es: seq<Event>, n: nat, s: State)
    requires n <= |es|
  {
    var i := WindowStart(c, es, n);
    && s.totalInvoke == RepliesIn(c, es, i, n) && s.timeoutInvoke == CountedIn(c, es, i, n)
    && s.nextFinishInvokeTime == WindowEnd(c, es, n)
  }

  /** What a reply of an active node does to the counters; `large` tells whether the counts it makes them are too
      large a share, `frequent` whether the frequency rule blocks. */
  predicate Counts(c: CheckTimeoutInfo, s: State, r: State, fail: bool, now: int, frequent: bool, large: bool) {
    var replies, failures := s.totalInvoke + 1, s.timeoutInvoke + if fail then 1 else 0;
    var ends := !frequent && now > s.nextFinishInvokeTime;
    && r.nextFinishInvokeTime == (if ends then now + c.checkTimeoutInterval else s.nextFinishInvokeTime)
    && r.totalInvoke == (if ends && !(fail && large) then 0 else replies)
    && r.timeoutInvoke == (if ends && !(fail && large) then 0 else failures)
    && (r.active <==> !frequent && !(ends && fail && large))
  }

  lemma ReplyStep(c: CheckTimeoutInfo, s: State, r: State, fail: bool, now: int, frequent: bool, large: bool,
                  failures: nat, replies: nat)
    requires s.active && r == Step(c, s, Finished(fail, now))
    requires replies == s.totalInvoke + 1 && failures == s.timeoutInvoke + if fail then 1 else 0
    requires frequent <==> fail && TooFrequent(c, Failed(c, s, now), now)
    requires large <==> IsLargeShare(c, failures, replies)
    ensures Counts(c, s, r, fail, now, frequent, large)
  {
  }

  lemma CountedOneMore(c: CheckTimeoutInfo, es: seq<Event>, i: nat, k: nat)
    requires i <= k < |es| && es[k].Finished? && After(c, es, k).active
    ensures RepliesIn(c, es, i, k + 1) == RepliesIn(c, es, i, k) + 1
    ensures CountedIn(c, es, i, k + 1) == CountedIn(c, es, i, k) + if es[k].fail then 1 else 0
    ensures RepliesIn(c, es, k + 1, k + 1) == 0 && CountedIn(c, es, k + 1, k + 1) == 0
  {
  }

  lemma WindowMoves(c: CheckTimeoutInfo, es: seq<Event>, k: nat)
    requires k < |es| && es[k].Finished? && After(c, es, k).active
    ensures WindowEnd(c, es, k + 1)
      == if EndsWindow(c, es, k) then es[k].now + c.checkTimeoutInterval else WindowEnd(c, es, k)
    ensures WindowStart(c, es, k + 1)
      == if EndsWindow(c, es, k) && !ShareDue(c, es, k) then k + 1 else WindowStart(c, es, k)
  {
  }

  lemma CountsOn(c: CheckTimeoutInfo, es: seq<Event>, k: nat, s: State, r: State, large: bool)
    requires k < |es| && es[k].Finished? && After(c, es, k).active && CountsWindow(c, es, k, s)
    requires Counts(c, s, r, es[k].fail, es[k].now, FrequencyDue(c, es, k), large)
    requires ShareDue(c, es, k) <==> es[k].fail && EndsWindow(c, es, k) && large
    ensures CountsWindow(c, es, k + 1, r) && (r.active <==> !FrequencyDue(c, es, k) && !ShareDue(c, es, k))
  {
    CountedOneMore(c, es, WindowStart(c, es, k), k);
    WindowMoves(c, es, k);
  }

  lemma ReplyCounts(c: CheckTimeoutInfo, es: seq<Event>, k: nat, s: State, r: State)
    requires k < |es| && s == After(c, es, k) && r == After(c, es, k + 1)
    requires CountsWindow(c, es, k, s) && es[k].Finished? && s.active
    ensures CountsWindow(c, es, k + 1, r) && (r.active <==> !FrequencyDue(c, es, k) && !ShareDue(c, es, k))
  {
    FrequencyRule(c, es, k);
    var i, frequent := WindowStart(c, es, k), FrequencyDue(c, es, k);
    CountedOneMore(c, es, i, k);
    var failures, replies := CountedIn(c, es, i, k + 1), RepliesIn(c, es, i, k + 1);
    var large := IsLargeShare(c, failures, replies);
    ReplyStep(c, s, r, es[k].fail, es[k].now, frequent, large, failures, replies);
    CountsOn(c, es, k, s, r, large);
  }

  lemma {:induction false} CountsTheWindow(c: CheckTimeoutInfo, es: seq<Event>, n: nat)
    requires n <= |es|
    ensures CountsWindow(c, es, n, After(c, es, n))
  {
    if n > 0 {
      CountsTheWindow(c, es, n - 1);
      if es[n - 1].Finished? && After(c, es, n - 1).active {
        ReplyCounts(c, es, n - 1, After(c, es, n - 1), After(c, es, n));
      } else if es[n - 1].Finished? && !es[n - 1].fail {
        assert RepliesIn(c, es, n - 1, n - 1) == 0 && CountedIn(c, es, n - 1, n - 1) == 0;
      }
    }
  }

  /** When a counted failure blocks the node: exactly if the frequency rule or the share rule says so, both told from
      the events. */
  lemma FailureBlocksExactly(c: CheckTimeoutInfo, es: seq<Event>, k: nat)
    requires k < |es| && Counted(c, es, k)
    ensures !After(c, es, k + 1).active <==> FrequencyDue(c, es, k) || ShareDue(c, es, k)
  {
    CountsTheWindow(c, es, k);
    ReplyCounts(c, es, k, After(c, es, k), After(c, es, k + 1));
  }

  /** With the default settings a first failure since counting started blocks no node by its share. */
  lemma FirstFailureIsNoLargeShare(es: seq<Event>, k: nat)
    requires k < |es| && CountedIn(DEFAULTS, es, WindowStart(DEFAULTS, es, k), k) == 0
    ensures !ShareDue(DEFAULTS, es, k)
    ensures Counted(DEFAULTS, es, k) && StreakStart(DEFAULTS, es, k) == k ==> After(DEFAULTS, es, k + 1).active
  {
    assert CountedIn(DEFAULTS, es, WindowStart(DEFAULTS, es, k), k + 1) <= 1;
    if Counted(DEFAULTS, es, k) && StreakStart(DEFAULTS, es, k) == k {
      FailureBlocksExactly(DEFAULTS, es, k);
      assert CountedIn(DEFAULTS, es, k, k) == 0;
    }
  }

  // ---- connection failures, and when a node is active

  /** The connection failures since the connection was last established. */
  function ConnectFailures(es: seq<Event>, n: nat): nat
    requires n <= |es|
  {
    if n == 0 || es[n - 1].Connected? then 0
    else ConnectFailures(es, n - 1) + if es[n - 1].ConnectFailed? then 1 else 0
  }

  /** While the node is not flagged the count is exact; a flagged one is blocked. */
  predicate CountsConnects(c: CheckTimeoutInfo, s: State, failures: nat) {
    && (failures < c.maxConnectExc ==> s.connExcCnt == failures && !s.connExc)
    && (failures >= c.maxConnectExc ==> s.connExcCnt >= c.maxConnectExc)
    && (s.connExc ==> !s.active)
  }

  lemma ConnectStep(c: CheckTimeoutInfo, s: State, e: Event, failures: nat)
    requires CountsConnects(c, s, failures)
    ensures var more := if e.Connected? then 0 else if e.ConnectFailed? then failures + 1 else failures;
      CountsConnects(c, Step(c, s, e), more)
  {
  }

  lemma {:induction false} CountsTheConnects(c: CheckTimeoutInfo, es: seq<Event>, n: nat)
    requires n <= |es|
    ensures CountsConnects(c, After(c, es, n), ConnectFailures(es, n))
  {
    if n > 0 {
      CountsTheConnects(c, es, n - 1);
      ConnectStep(c, After(c, es, n - 1), es[n - 1], ConnectFailures(es, n - 1));
    }
  }

  /** When a node is active, told from the events: a success or a connection makes it so; an active one ceases to be so
      exactly by a failure that one of the two rules blocks, a failed attempt, enough failed connections since the last
      established one, or another adapter's blocking. */
  lemma ActiveExactly(c: CheckTimeoutInfo, es: seq<Event>, k: nat)
    requires k < |es|
    ensures After(c, es, k + 1).active <==>
      match es[k]
      case Finished(fail, _) => !fail || (After(c, es, k).active && !FrequencyDue(c, es, k) && !ShareDue(c, es, k))
      case Checked(_, valid, throws) => After(c, es, k).active && (valid || !throws)
      case RetryReset(_) => After(c, es, k).active
      case Blocked(_) => false
      case ConnectFailed(_) => After(c, es, k).active && ConnectFailures(es, k + 1) < c.maxConnectExc
      case Connected(_) => true
  {
    CountsTheConnects(c, es, k);
    if Counted(c, es, k) {
      FailureBlocksExactly(c, es, k);
    } else if es[k].Finished? && After(c, es, k).active {
      CountsTheWindow(c, es, k);
      ReplyCounts(c, es, k, After(c, es, k), After(c, es, k + 1));
    }
  }

  // ---- connection attempts

  predicate InOrder(es: seq<Event>) {
    forall j, k :: 0 <= j < k < |es| ==> es[j].now <= es[k].now
  }

  /** checkActive tries to connect a blocked node on event k. */
  predicate AttemptWhileBlocked(c: CheckTimeoutInfo, es: seq<Event>, k: nat)
    requires k < |es|
  {
    es[k].Checked? && !es[k].valid && !After(c, es, k).active && MayTry(After(c, es, k), es[k].now)
  }

  /** Once it is an interval past event j, the retry time stays so, whatever blocking, reactivation and connection
      failures follow, until it is reset. */
  lemma {:induction false} RetryTimeStays(c: CheckTimeoutInfo, es: seq<Event>, j: nat, k: nat)
    requires j < k <= |es| && InOrder(es) && After(c, es, j + 1).nextRetryTime >= es[j].now + c.tryTimeInterval
    requires forall m :: j < m < k ==> !es[m].RetryReset?
    ensures After(c, es, k).nextRetryTime >= es[j].now + c.tryTimeInterval
  {
    if k > j + 1 {
      RetryTimeStays(c, es, j, k - 1);
      RetryTimeMoves(c, After(c, es, k - 1), es[k - 1]);
    }
  }

  /** The step makes the node inactive, or would have if it had been active. */
  predicate SetsInactive(c: CheckTimeoutInfo, s: State, e: Event) {
    || e.Blocked?
    || (e.Finished? && s.active && !Step(c, s, e).active)
    || (e.ConnectFailed? && !s.connExc && s.connExcCnt + 1 >= c.maxConnectExc)
  }

  /** The only steps that move the retry time: blocking and an attempt on a blocked node, an interval ahead, and a
      reset, to now. */
  lemma RetryTimeMoves(c: CheckTimeoutInfo, s: State, e: Event)
    ensures Step(c, s, e).nextRetryTime ==
      if e.RetryReset? then e.now
      else if SetsInactive(c, s, e) || (e.Checked? && !s.active && e.now >= s.nextRetryTime)
      then e.now + c.tryTimeInterval
      else s.nextRetryTime
  {
  }

  /** Any two attempts on a blocked node are tryTimeInterval apart, whatever blocking, reactivation and connection
      failures come between them, unless the retry time was reset in between. */
  lemma AttemptsAreApart(c: CheckTimeoutInfo, es: seq<Event>, j: nat, k: nat)
    requires j < k < |es| && InOrder(es) && AttemptWhileBlocked(c, es, j) && AttemptWhileBlocked(c, es, k)
    requires forall m :: j < m < k ==> !es[m].RetryReset?
    ensures es[k].now >= es[j].now + c.tryTimeInterval
  {
    RetryTimeStays(c, es, j, k);
  }

  // ---- what blocks a node

  /** Event k blocks an active node. */
  predicate Blocks(c: CheckTimeoutInfo, es: seq<Event>, k: nat)
    requires k < |es|
  {
    After(c, es, k).active && !Step(c, After(c, es, k), es[k]).active
  }

  /** Whatever blocks an active node sets the retry time an interval ahead, except a failing connection attempt of
      checkActive, which leaves it as it is. */
  lemma BlockingSetsRetryTime(c: CheckTimeoutInfo, s: State, e: Event)
    requires s.active && !Step(c, s, e).active
    ensures Step(c, s, e).nextRetryTime == if e.Checked? then s.nextRetryTime else e.now + c.tryTimeInterval
    ensures Step(c, s, e).nextRetryTime >= e.now + c.tryTimeInterval
      <==> !e.Checked? || s.nextRetryTime >= e.now + c.tryTimeInterval
  {
  }

  /** So after a node is blocked, and without a reset, attempts are an interval away, unless it was blocked by a failing
      attempt with an earlier retry time. */
  lemma AttemptsAfterBlocking(c: CheckTimeoutInfo, es: seq<Event>, j: nat, k: nat)
    requires j < k < |es| && InOrder(es) && Blocks(c, es, j) && AttemptWhileBlocked(c, es, k)
    requires forall m :: j < m < k ==> !es[m].RetryReset?
    ensures es[k].now >= es[j].now + c.tryTimeInterval
      || (es[j].Checked? && After(c, es, j).nextRetryTime < es[j].now + c.tryTimeInterval)
  {
    BlockingSetsRetryTime(c, After(c, es, j), es[j]);
    if !es[j].Checked? || After(c, es, j).nextRetryTime >= es[j].now + c.tryTimeInterval {
      RetryTimeStays(c, es, j, k);
    }
  }

  lemma {:induction false} AfterOfPrefix(c: CheckTimeoutInfo, es: seq<Event>, more: seq<Event>, n: nat)
    requires n <= |es|
    ensures After(c, es + more, n) == After(c, es, n)
  {
    if n > 0 { AfterOfPrefix(c, es, more, n - 1); }
  }

  /** Exactly when the next event can be an attempt: from an interval after the blocking event on, or, if that was a
      failing attempt, from the old retry time on. */
  lemma NextAttemptAfterBlocking(c: CheckTimeoutInfo, es: seq<Event>, j: nat, now: int, throws: bool)
    requires |es| == j + 1 && Blocks(c, es, j)
    ensures AttemptWhileBlocked(c, es + [Checked(now, false, throws)], j + 1)
      <==> now >= if es[j].Checked? then After(c, es, j).nextRetryTime else es[j].now + c.tryTimeInterval
  {
    var more := es + [Checked(now, false, throws)];
    AfterOfPrefix(c, es, [Checked(now, false, throws)], j + 1);
    BlockingSetsRetryTime(c, After(c, es, j), es[j]);
  }

  /** A history in which that is the same second: the first attempt of a fresh node fails, and the next one follows at
      once. */
  lemma FirstFailureSetsNoRetryTime(c: CheckTimeoutInfo, now: nat)
    ensures var es := [Checked(now, false, true), Checked(now, false, true)];
      After(c, es, 0).active && MayTry(After(c, es, 0), now) && AttemptWhileBlocked(c, es, 1)
  {
    var es := [Checked(now, false, true), Checked(now, false, true)];
    assert After(c, es, 0) == FRESH;
    assert After(c, es, 1) == Step(c, FRESH, es[0]);
  }

  /** A blocked node that is active again has had a successful reply or an established connection in between. */
  lemma {:induction false} ComesBackOnlyOn(c: CheckTimeoutInfo, es: seq<Event>, j: nat, k: nat) returns (m: nat)
    requires j < k <= |es| && !After(c, es, j).active && After(c, es, k).active
    ensures j <= m < k && (es[m].Connected? || (es[m].Finished? && !es[m].fail))
  {
    m := k - 1;
    if After(c, es, k - 1).active { m := ComesBackOnlyOn(c, es, j, k - 1); }
  }
}
