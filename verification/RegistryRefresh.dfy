/**
 QueryEpBase: when the registry is asked for endpoints, and what its answers change. Times are milliseconds of the
 source's clock and inputs of every operation; the registry's answers are inputs too. Past the guard only root
 servants send an asynchronous query, but the state is the same with and without; one that throws is answered by a
 failure at once.
 */
module RegistryRefresh {
  /** An endpoint of a registry reply. Endpoints are compared by address alone: type, host and port. */
  datatype Endpoint = Endpoint(address: string, weight: int, weightType: int)

  const TIMEOUT_INTERVAL: int := 5000
  const ACTIVE_EMPTY_INTERVAL: int := 10000
  const FAIL_INTERVAL: int := 2000
  const MANY_FAIL_INTERVAL: int := 30000
  const FAIL_TIMES_LIMIT: nat := 3
  const LEAST_REFRESH_INTERVAL: int := 5000

  datatype Config = Config(direct: bool, interfaceReq: bool, refreshInterval: int)

  /** The constructor lifts a shorter refresh interval to the least one. */
  ghost predicate Sane(c: Config) {
    c.refreshInterval >= LEAST_REFRESH_INTERVAL
  }

  /** `active` and `inactive` hold endpoints by address; `notified` counts doNotify calls. */
  datatype State = State(
    valid: bool, staticWeight: bool, active: map<string, Endpoint>, inactive: map<string, Endpoint>,
    requestRegistry: bool, requestTimeout: int, refreshTime: int, failTimes: nat, outerPending: bool, notified: nat)

  datatype Reply =
    | Answer(ret: int, activeEp: seq<Endpoint>, inactiveEp: seq<Endpoint>)
    | Failure

  datatype Event =
    | Refresh(now: int, sync: Reply, at: int) // refreshReg; a synchronous query, if made, is answered at time `at`
    | Callback(now: int, reply: Reply)        // an asynchronous answer, however late
    | Outer(now: int)                         // updateEndpointsOutter, from another thread

  // ---- the endpoint lists

  /** A set keeps the first of several endpoints with one address. */
  function ByAddress(eps: seq<Endpoint>): map<string, Endpoint> {
    if eps == [] then map[]
    else
      var rest, e := ByAddress(eps[..|eps| - 1]), eps[|eps| - 1];
      if e.address in rest then rest else rest[e.address := e]
  }

  lemma {:induction false} HoldsEveryAddress(eps: seq<Endpoint>, a: string)
    ensures a in ByAddress(eps) <==> exists i :: 0 <= i < |eps| && eps[i].address == a
    ensures a in ByAddress(eps) ==> ByAddress(eps)[a] in eps && ByAddress(eps)[a].address == a
  {
    if eps != [] { HoldsEveryAddress(eps[..|eps| - 1], a); }
  }

  lemma OneMore(eps: seq<Endpoint>, i: nat)
    requires i < |eps|
    ensures var m := ByAddress(eps[..i]);
      ByAddress(eps[..i + 1]) == if eps[i].address in m then m else m[eps[i].address := eps[i]]
  {
    assert eps[..i + 1][..i] == eps[..i];
  }

  /** Static weights are used when every endpoint says so. */
  predicate AllStatic(eps: seq<Endpoint>) {
    eps != [] && forall i :: 0 <= i < |eps| ==> eps[i].weightType == 1
  }

  // ---- the operations as functions

  function Failed(s: State, now: int): State {
    var s := s.(failTimes := s.failTimes + 1, requestRegistry := false, refreshTime := now + FAIL_INTERVAL);
    if s.failTimes <= FAIL_TIMES_LIMIT then s
    else MadeValid(s).(refreshTime := now + MANY_FAIL_INTERVAL)
  }

  function MadeValid(s: State): State {
    if s.valid then s else s.(valid := true, notified := s.notified + 1)
  }

  function Replace(held: map<string, Endpoint>, eps: seq<Endpoint>): map<string, Endpoint> {
    if held.Keys == ByAddress(eps).Keys then held else ByAddress(eps)
  }

  function Answered(c: Config, s: State, reply: Reply, now: int): State {
    if reply.Failure? || reply.ret != 0 then Failed(s, now)
    else
      var s := s.(failTimes := 0, requestRegistry := false);
      if reply.activeEp == [] && !c.interfaceReq then s.(refreshTime := now + ACTIVE_EMPTY_INTERVAL)
      else
        MadeValid(s.(refreshTime := now + c.refreshInterval,
                     staticWeight := AllStatic(reply.activeEp),
                     active := Replace(s.active, reply.activeEp),
                     inactive := Replace(s.inactive, reply.inactiveEp)))
  }

  function TookOuter(s: State): State {
    if s.outerPending then s.(outerPending := false, valid := true) else s
  }

  function TimedOut(s: State, now: int): State {
    if s.requestRegistry && s.requestTimeout < now then Failed(s, now) else s
  }

  /** The guard of the query, evaluated after a pending update and a timeout were dealt with. */
  predicate Passes(c: Config, s: State, now: int) {
    var s := TimedOut(TookOuter(s), now);
    !c.direct && !s.requestRegistry && s.refreshTime <= now
  }

  /** Past the guard, no data yet and an interface request: the query is made on the spot. */
  predicate QueriesInPlace(c: Config, s: State) {
    !s.valid && c.interfaceReq
  }

  function Refreshed(c: Config, s: State, now: int, sync: Reply, at: int): State {
    var s := TookOuter(s);
    if c.direct then s
    else
      var s := TimedOut(s, now);
      if s.requestRegistry || s.refreshTime > now then s
      else
        var s := s.(requestRegistry := true, requestTimeout := now + TIMEOUT_INTERVAL);
        if QueriesInPlace(c, s) then Answered(c, s, sync, at) else s
  }

  function Step(c: Config, s: State, e: Event): State {
    match e
    case Refresh(now, sync, at) => Refreshed(c, s, now, sync, at)
    case Callback(now, reply) => Answered(c, s, reply, now)
    case Outer(now) => s.(outerPending := true, refreshTime := now + c.refreshInterval)
  }

  // ---- the object

  class QueryEpBase {
    const config: Config
    var valid: bool
    var staticWeight: bool
    var active: map<string, Endpoint>
    var inactive: map<string, Endpoint>
    var requestRegistry: bool
    var requestTimeout: int
    var refreshTime: int
    var failTimes: nat
    var outerPending: bool
    var notified: nat

    ghost function View(): State
      reads this
    {
      State(valid, staticWeight, active, inactive, requestRegistry, requestTimeout, refreshTime, failTimes,
            outerPending, notified)
    }

    /** The refresh interval is the configured one, but not below the least. Given or, unless this is an interface
        request, cached endpoints are taken over, and with active ones the data is valid at once. The list read last
        decides on the weights: that of the inactive endpoints, if there is one. */
    constructor (isDirect: bool, isInterface: bool, interval: int, given: seq<Endpoint>,
                 cached: seq<Endpoint>, cachedInactive: seq<Endpoint>)
      ensures Sane(config) && config.direct == isDirect && config.interfaceReq == isInterface
      ensures config.refreshInterval == interval || (interval < config.refreshInterval == LEAST_REFRESH_INTERVAL)
      ensures active == ByAddress(if isDirect then given else if isInterface then [] else cached)
      ensures inactive == ByAddress(if isDirect || isInterface then [] else cachedInactive)
      ensures valid <==> isDirect || (!isInterface && cached != [])
      ensures staticWeight <==>
        AllStatic(if isDirect then given else if isInterface then []
                  else if cachedInactive != [] then cachedInactive else cached)
      ensures !requestRegistry && !outerPending && failTimes == 0 && notified == 0 && refreshTime == 0
    {
      config := Config(isDirect, isInterface,
                       if interval < LEAST_REFRESH_INTERVAL then LEAST_REFRESH_INTERVAL else interval);
      requestRegistry, requestTimeout, refreshTime, failTimes, outerPending, notified := false, 0, 0, 0, false, 0;
      var sEndpoints := if isDirect then given else if isInterface then [] else cached;
      var sInactive := if isDirect || isInterface then [] else cachedInactive;
      var activeEps, isStatic := Collect(sEndpoints);
      var inactiveEps, lastStatic := Collect(sInactive);
      active, inactive := activeEps, inactiveEps;
      staticWeight := if |sInactive| > 0 then lastStatic else isStatic;
      valid := isDirect || |sEndpoints| > 0;
    }

    method DoEndpointsExp(now: int)
      modifies this`valid, this`requestRegistry, this`refreshTime, this`failTimes, this`notified
      ensures View() == Failed(old(View()), now)
    {
      failTimes := failTimes + 1;
      requestRegistry := false;
      refreshTime := now + FAIL_INTERVAL;
      if failTimes > FAIL_TIMES_LIMIT {
        if !valid {
          valid := true;
          notified := notified + 1;
        }
        refreshTime := now + MANY_FAIL_INTERVAL;
      }
    }

    /** `changed` tells whether the endpoints were passed on (notifyEndpoints). */
    method DoEndpoints(reply: Reply, now: int) returns (changed: bool)
      modifies this
      ensures View() == Answered(config, old(View()), reply, now)
      ensures changed <==>
        && reply.Answer? && reply.ret == 0 && (reply.activeEp != [] || config.interfaceReq)
        && (|| old(active).Keys != ByAddress(reply.activeEp).Keys
            || old(inactive).Keys != ByAddress(reply.inactiveEp).Keys)
    {
      changed := false;
      if reply.Failure? || reply.ret != 0 {
        DoEndpointsExp(now);
        return;
      }
      failTimes := 0;
      requestRegistry := false;
      if |reply.activeEp| == 0 && !config.interfaceReq {
        refreshTime := now + ACTIVE_EMPTY_INTERVAL;
        return;
      }
      refreshTime := now + config.refreshInterval;
      changed := TakeLists(reply.activeEp, reply.inactiveEp);
      if !valid {
        valid := true;
        notified := notified + 1;
      }
    }

    method TakeLists(activeEp: seq<Endpoint>, inactiveEp: seq<Endpoint>) returns (changed: bool)
      modifies this`staticWeight, this`active, this`inactive
      ensures staticWeight <==> AllStatic(activeEp)
      ensures active == Replace(old(active), activeEp) && inactive == Replace(old(inactive), inactiveEp)
      ensures changed <==>
        old(active).Keys != ByAddress(activeEp).Keys || old(inactive).Keys != ByAddress(inactiveEp).Keys
    {
      changed := false;
      var activeEps, isStatic := Collect(activeEp);
      var inactiveEps, _ := Collect(inactiveEp);
      staticWeight := isStatic;
      if activeEps.Keys != active.Keys {
        changed := true;
        active := activeEps;
      }
      if inactiveEps.Keys != inactive.Keys {
        changed := true;
        inactive := inactiveEps;
      }
    }

    /** `passed` tells whether the guard of the query was passed. */
    method RefreshReg(now: int, sync: Reply, at: int) returns (passed: bool)
      modifies this
      ensures View() == Refreshed(config, old(View()), now, sync, at)
      ensures passed <==> Passes(config, old(View()), now)
    {
      passed := false;
      if outerPending { outerPending, valid := false, true; }
      if config.direct { return; }
      if requestRegistry && requestTimeout < now { DoEndpointsExp(now); }
      if requestRegistry || refreshTime > now { return; }
      passed := true;
      requestRegistry := true;
      requestTimeout := now + TIMEOUT_INTERVAL;
      if !valid && config.interfaceReq { var changed := DoEndpoints(sync, at); }
    }

    method UpdateEndpointsOutter(now: int)
      modifies this`refreshTime, this`outerPending
      ensures View() == Step(config, old(View()), Outer(now))
    {
      refreshTime := now + config.refreshInterval;
      outerPending := true;
    }
  }

  /** The loop over a list of the reply: the set of its endpoints, and whether all have static weights. */
  method Collect(eps: seq<Endpoint>) returns (m: map<string, Endpoint>, isStatic: bool)
    ensures m == ByAddress(eps)
    ensures isStatic <==> AllStatic(eps)
  {
    m := map[];
    var same, first, weightType := true, true, 0;
    for i := 0 to |eps|
      invariant m == ByAddress(eps[..i])
      invariant first <==> i == 0
      invariant first ==> weightType == 0
      invariant i > 0 ==> weightType == eps[0].weightType
      invariant same <==> forall j :: 0 <= j < i ==> eps[j].weightType == eps[0].weightType
    {
      if first {
        first, weightType := false, eps[i].weightType;
      } else if eps[i].weightType != weightType {
        same := false;
      }
      OneMore(eps, i);
      if eps[i].address !in m { m := m[eps[i].address := eps[i]]; }
    }
    assert eps[..|eps|] == eps;
    isStatic := same && weightType == 1;
  }

  // ---- histories

  function End(e: Event): int {
    if e.Refresh? then e.at else e.now
  }

  /** Time does not run backwards. */
  predicate InOrder(es: seq<Event>) {
    && (forall k :: 0 <= k < |es| ==> es[k].now <= End(es[k]))
    && (forall j, k :: 0 <= j < k < |es| ==> End(es[j]) <= es[k].now)
  }

  function After(c: Config, s: State, es: seq<Event>, n: nat): State
    requires n <= |es|
  {
    if n == 0 then s else Step(c, After(c, s, es, n - 1), es[n - 1])
  }

  predicate PassesAt(c: Config, s: State, es: seq<Event>, k: nat)
    requires k < |es|
  {
    es[k].Refresh? && Passes(c, After(c, s, es, k), es[k].now)
  }

  predicate Shut(s: State, since: int) {
    s.requestRegistry || s.refreshTime >= since + FAIL_INTERVAL
  }

  lemma StepKeepsShut(c: Config, s: State, e: Event, since: int)
    requires Sane(c) && Shut(s, since) && since <= e.now <= End(e)
    ensures Shut(Step(c, s, e), since)
  {
  }

  lemma {:induction false} GuardStaysShut(c: Config, s: State, es: seq<Event>, j: nat, k: nat)
    requires Sane(c) && j < k <= |es| && InOrder(es) && PassesAt(c, s, es, j)
    ensures Shut(After(c, s, es, k), es[j].now)
  {
    if k > j + 1 {
      GuardStaysShut(c, s, es, j, k - 1);
      assert es[j].now <= End(es[j]) <= es[k - 1].now;
      StepKeepsShut(c, After(c, s, es, k - 1), es[k - 1], es[j].now);
    } else {
      PassShuts(c, After(c, s, es, j), es[j]);
    }
  }

  lemma PassShuts(c: Config, s: State, e: Event)
    requires Sane(c) && e.Refresh? && Passes(c, s, e.now) && e.now <= e.at
    ensures Shut(Step(c, s, e), e.now)
  {
  }

  /** Whatever timeouts, late answers and outside updates come between them, two passes of the guard are at least the
      failure interval apart. */
  lemma PassesAreApart(c: Config, s: State, es: seq<Event>, j: nat, k: nat)
    requires Sane(c) && j < k < |es| && InOrder(es) && PassesAt(c, s, es, j) && PassesAt(c, s, es, k)
    ensures es[k].now >= es[j].now + FAIL_INTERVAL
  {
    GuardStaysShut(c, s, es, j, k);
  }

  /** Data once valid stays valid, and of the steps that make it valid only one can notify. */
  lemma {:induction false} NotifiesAtMostOnce(c: Config, s: State, es: seq<Event>, n: nat)
    requires n <= |es|
    ensures var r := After(c, s, es, n);
      && (s.valid ==> r.valid && r.notified == s.notified)
      && s.notified <= r.notified <= s.notified + 1
      && (r.notified > s.notified ==> r.valid)
  {
    if n > 0 {
      NotifiesAtMostOnce(c, s, es, n - 1);
      StepNotifies(c, After(c, s, es, n - 1), es[n - 1]);
    }
  }

  lemma StepNotifies(c: Config, s: State, e: Event)
    ensures var r := Step(c, s, e);
      && (s.valid ==> r.valid && r.notified == s.notified)
      && s.notified <= r.notified <= s.notified + 1
      && (r.notified > s.notified ==> r.valid)
      && (!s.valid && r.valid && !s.outerPending ==> r.notified == s.notified + 1)
  {
  }

  /** An update from outside counts as an answer: the next query is a refresh interval away, and from the next refresh
      on the data is valid, without a notification. */
  lemma OuterCounts(c: Config, s: State, now: int, later: int, sync: Reply, at: int)
    requires !s.valid && !s.requestRegistry
    ensures var r := Step(c, s, Outer(now));
      && !r.valid && (Passes(c, r, later) <==> !c.direct && now + c.refreshInterval <= later)
      && var q := Step(c, r, Refresh(later, sync, at));
      && q.valid && !q.outerPending && q.notified == s.notified && q.active == s.active && q.failTimes == s.failTimes
  {
  }

  /** For other than interface requests no answer empties a set of active endpoints. */
  lemma {:induction false} NeverEmptied(c: Config, s: State, es: seq<Event>, n: nat)
    requires n <= |es| && !c.interfaceReq && s.active != map[]
    ensures After(c, s, es, n).active != map[]
  {
    if n > 0 {
      NeverEmptied(c, s, es, n - 1);
      var e := es[n - 1];
      if e.Callback? && e.reply.Answer? && e.reply.activeEp != [] {
        HoldsEveryAddress(e.reply.activeEp, e.reply.activeEp[0].address);
      }
    }
  }

  // ---- failures in a row

  predicate IsFailure(reply: Reply) {
    reply.Failure? || reply.ret != 0
  }

  /** refreshReg gives up on a query that was not answered in time. */
  predicate TimesOut(c: Config, s: State, now: int) {
    !c.direct && s.requestRegistry && s.requestTimeout < now
  }

  /** refreshReg makes a synchronous query. */
  predicate Queries(c: Config, s: State, now: int) {
    Passes(c, s, now) && QueriesInPlace(c, TimedOut(TookOuter(s), now))
  }

  /** The event counts as a failure: a failed answer, of whatever query, or a timeout. */
  predicate Fails(c: Config, s: State, e: Event) {
    match e
    case Refresh(now, sync, _) => TimesOut(c, s, now) || (Queries(c, s, now) && IsFailure(sync))
    case Callback(_, reply) => IsFailure(reply)
    case Outer(_) => false
  }

  predicate Succeeds(c: Config, s: State, e: Event) {
    match e
    case Refresh(now, sync, _) => Queries(c, s, now) && !IsFailure(sync)
    case Callback(_, reply) => !IsFailure(reply)
    case Outer(_) => false
  }

  function FailureTime(c: Config, s: State, e: Event): int {
    if e.Refresh? && !TimesOut(c, s, e.now) then e.at else e.now
  }

  function FailuresIn(c: Config, s: State, es: seq<Event>, n: nat): nat
    requires n <= |es|
  {
    if n == 0 then 0
    else FailuresIn(c, s, es, n - 1) + if Fails(c, After(c, s, es, n - 1), es[n - 1]) then 1 else 0
  }

  /** None of the first n events is an answer that succeeds. */
  predicate NoneSucceeds(c: Config, s: State, es: seq<Event>, n: nat)
    requires n <= |es|
  {
    n == 0 || (NoneSucceeds(c, s, es, n - 1) && !Succeeds(c, After(c, s, es, n - 1), es[n - 1]))
  }

  predicate NoneIsOuter(es: seq<Event>) {
    forall k :: 0 <= k < |es| ==> !es[k].Outer?
  }

  lemma FailingStep(c: Config, s: State, e: Event)
    requires Fails(c, s, e)
    ensures Step(c, s, e).failTimes == s.failTimes + 1
    ensures Step(c, s, e).refreshTime == FailureTime(c, s, e)
      + if s.failTimes + 1 > FAIL_TIMES_LIMIT then MANY_FAIL_INTERVAL else FAIL_INTERVAL
    ensures !Step(c, s, e).requestRegistry
    ensures !s.outerPending ==> !Step(c, s, e).outerPending
    ensures !s.outerPending ==> (Step(c, s, e).valid <==> s.valid || s.failTimes + 1 > FAIL_TIMES_LIMIT)
  {
  }

  lemma OtherStep(c: Config, s: State, e: Event)
    requires !Fails(c, s, e) && !Succeeds(c, s, e)
    ensures Step(c, s, e).failTimes == s.failTimes
    ensures !s.outerPending && !e.Outer? ==> !Step(c, s, e).outerPending
    ensures !s.outerPending && !e.Outer? ==> (Step(c, s, e).valid <==> s.valid)
  {
  }

  /** As long as no answer succeeds every failed answer and every timeout counts. */
  lemma {:induction false} FailuresCount(c: Config, s: State, es: seq<Event>, n: nat)
    requires n <= |es| && NoneSucceeds(c, s, es, n)
    ensures After(c, s, es, n).failTimes == s.failTimes + FailuresIn(c, s, es, n)
  {
    if n > 0 {
      FailuresCount(c, s, es, n - 1);
      var was := After(c, s, es, n - 1);
      if Fails(c, was, es[n - 1]) { FailingStep(c, was, es[n - 1]); } else { OtherStep(c, was, es[n - 1]); }
    }
  }

  /** After a failure the next query is due in two seconds, from the fourth failure in a row on in thirty. */
  lemma FailureDelaysQuery(c: Config, s: State, es: seq<Event>, n: nat)
    requires 0 < n <= |es| && NoneSucceeds(c, s, es, n) && Fails(c, After(c, s, es, n - 1), es[n - 1])
    ensures After(c, s, es, n).refreshTime == FailureTime(c, After(c, s, es, n - 1), es[n - 1])
      + if s.failTimes + FailuresIn(c, s, es, n) > FAIL_TIMES_LIMIT then MANY_FAIL_INTERVAL else FAIL_INTERVAL
    ensures !After(c, s, es, n).requestRegistry
  {
    FailuresCount(c, s, es, n - 1);
    FailingStep(c, After(c, s, es, n - 1), es[n - 1]);
  }

  /** Without outer updates it is the fourth failure in a row, and no earlier one, that makes the data valid, with
      whatever endpoints there are. */
  lemma {:induction false} ValidAfterFourFailures(c: Config, s: State, es: seq<Event>, n: nat)
    requires n <= |es| && NoneSucceeds(c, s, es, n) && NoneIsOuter(es)
    requires !s.valid && s.failTimes <= FAIL_TIMES_LIMIT && !s.outerPending
    ensures After(c, s, es, n).valid <==> s.failTimes + FailuresIn(c, s, es, n) > FAIL_TIMES_LIMIT
    ensures !After(c, s, es, n).outerPending
  {
    if n > 0 {
      ValidAfterFourFailures(c, s, es, n - 1);
      FailuresCount(c, s, es, n - 1);
      var was := After(c, s, es, n - 1);
      if Fails(c, was, es[n - 1]) { FailingStep(c, was, es[n - 1]); } else { OtherStep(c, was, es[n - 1]); }
    }
  }

  /** An answer is held exactly as given if its addresses are new or its endpoints, weights and all, are those held; an
      answer that only changes weights is dropped. */
  lemma HeldAsAnswered(c: Config, s: State, reply: Reply, now: int)
    requires reply.Answer? && reply.ret == 0 && reply.activeEp != []
    ensures var held := Answered(c, s, reply, now).active;
      && held.Keys == ByAddress(reply.activeEp).Keys
      && (held == ByAddress(reply.activeEp)
          <==> s.active.Keys != ByAddress(reply.activeEp).Keys || s.active == ByAddress(reply.activeEp))
  {
  }

  /** What an answer that succeeds sets in motion: without active endpoints, unless it is an interface request, the
      query is repeated in ten seconds and nothing else changes; otherwise it is due again after the refresh interval,
      the data is valid and both lists have the addresses of the answer. */
  lemma SuccessSchedules(c: Config, s: State, reply: Reply, now: int)
    requires !IsFailure(reply)
    ensures var r := Answered(c, s, reply, now);
      && r.failTimes == 0 && !r.requestRegistry && r.outerPending == s.outerPending
      && if reply.activeEp == [] && !c.interfaceReq then
           && r.refreshTime == now + ACTIVE_EMPTY_INTERVAL && r.valid == s.valid && r.staticWeight == s.staticWeight
           && r.active == s.active && r.inactive == s.inactive && r.notified == s.notified
         else
           && r.refreshTime == now + c.refreshInterval && r.valid && (r.staticWeight <==> AllStatic(reply.activeEp))
           && r.notified == s.notified + (if s.valid then 0 else 1)
           && r.active.Keys == ByAddress(reply.activeEp).Keys && r.inactive.Keys == ByAddress(reply.inactiveEp).Keys
           && (r.inactive == ByAddress(reply.inactiveEp)
               <==> s.inactive.Keys != ByAddress(reply.inactiveEp).Keys || s.inactive == ByAddress(reply.inactiveEp))
  {
  }

  /** A query made at event j is given up by the first refresh more than five seconds later, unless it is answered
      before; until then no refresh gives it up or passes the guard. */
  lemma {:induction false} GivenUpAfterFiveSeconds(c: Config, s: State, es: seq<Event>, j: nat, k: nat)
    requires j < k < |es| && PassesAt(c, s, es, j) && !Queries(c, After(c, s, es, j), es[j].now) && es[k].Refresh?
    requires forall i :: j < i < k ==> es[i].Outer? || (es[i].Refresh? && es[i].now <= es[j].now + TIMEOUT_INTERVAL)
    ensures TimesOut(c, After(c, s, es, k), es[k].now) <==> es[k].now > es[j].now + TIMEOUT_INTERVAL
    ensures es[k].now <= es[j].now + TIMEOUT_INTERVAL ==> !PassesAt(c, s, es, k)
  {
    StillWaits(c, s, es, j, k);
  }

  lemma {:induction false} StillWaits(c: Config, s: State, es: seq<Event>, j: nat, k: nat)
    requires j < k <= |es| && PassesAt(c, s, es, j) && !Queries(c, After(c, s, es, j), es[j].now)
    requires forall i :: j < i < k ==> es[i].Outer? || (es[i].Refresh? && es[i].now <= es[j].now + TIMEOUT_INTERVAL)
    ensures var r := After(c, s, es, k);
      !c.direct && r.requestRegistry && r.requestTimeout == es[j].now + TIMEOUT_INTERVAL
  {
    if k > j + 1 {
      StillWaits(c, s, es, j, k - 1);
      WaitsOn(c, After(c, s, es, k - 1), es[k - 1]);
    } else {
      StartsWaiting(c, After(c, s, es, j), es[j]);
    }
  }

  lemma StartsWaiting(c: Config, s: State, e: Event)
    requires e.Refresh? && Passes(c, s, e.now) && !Queries(c, s, e.now)
    ensures var r := Step(c, s, e);
      !c.direct && r.requestRegistry && r.requestTimeout == e.now + TIMEOUT_INTERVAL
  {
  }

  lemma WaitsOn(c: Config, s: State, e: Event)
    requires !c.direct && s.requestRegistry && (e.Outer? || (e.Refresh? && e.now <= s.requestTimeout))
    ensures Step(c, s, e).requestRegistry && Step(c, s, e).requestTimeout == s.requestTimeout
  {
  }

  /** A query is made exactly when its time has come and none is on its way; giving one up does not repeat it at once.
      */
  lemma PassesExactly(c: Config, s: State, now: int)
    ensures Passes(c, s, now) <==> !c.direct && !s.requestRegistry && s.refreshTime <= now
  {
  }

  lemma WeightChangeIsMissed(c: Config, s: State, address: string, now: int)
    requires s.active == ByAddress([Endpoint(address, 10, 1)])
    ensures var r := Answered(c, s, Answer(0, [Endpoint(address, 90, 1)], []), now);
      r.active == map[address := Endpoint(address, 10, 1)] && r.staticWeight
  {
    var was, new' := [Endpoint(address, 10, 1)], [Endpoint(address, 90, 1)];
    assert was[..0] == [] && new'[..0] == [];
    assert ByAddress(was) == map[address := was[0]];
    assert ByAddress(new').Keys == {address};
  }
}
