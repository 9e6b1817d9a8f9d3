/**
 A future shared by threads that set it and threads that append watchers, one step per lock section. The setters
 race to mark it done; the one that does then takes the queued watchers in a second lock section and runs them. An
 appender looks whether the future is done in one lock section and queues its watcher in another.
 */
module Promise {
  import opened Collections

  /** What a promise was completed with: a value, or an exception. */
  datatype Outcome<T> = Value(v: T) | Exception(e: T)

  /** The fields a future guards with its mutex; watchers are numbered. */
  datatype Shared<T> = Shared(outcome: Option<Outcome<T>>, watchers: seq<nat>)

  // ---- the lock sections

  function Marked<T>(s: Shared<T>, o: Outcome<T>): (r: Shared<T>)
    ensures r.outcome.Some? && r.watchers == s.watchers
  {
    if s.outcome.Some? then s else s.(outcome := Some(o))
  }

  function Taken<T>(s: Shared<T>): Shared<T> { s.(watchers := []) }

  function Queued<T>(s: Shared<T>, w: nat): Shared<T> { s.(watchers := s.watchers + [w]) }

  class FutureImpl<T> {
    var isDone: bool
    var value: Option<T>
    var exp: Option<T>
    var watchers: seq<nat>

    ghost predicate Valid()
      reads this
    {
      isDone == (value.Some? || exp.Some?) && !(value.Some? && exp.Some?)
    }

    ghost function View(): Shared<T>
      requires Valid()
      reads this
    {
      var outcome :=
        if !isDone then None else if exp.Some? then Some(Exception(exp.value)) else Some(Value(value.value));
      Shared(outcome, watchers)
    }

    constructor ()
      ensures Valid() && View() == Shared(None, [])
    {
      isDone, value, exp, watchers := false, None, None, [];
    }

    /** The first lock section of setValue and setException; a second completion throws. */
    method MarkFinish(o: Outcome<T>) returns (threw: bool)
      requires Valid()
      modifies this`isDone, this`value, this`exp
      ensures Valid() && View() == Marked(old(View()), o)
      ensures threw <==> old(View()).outcome.Some?
    {
      if isDone { return true; }
      isDone := true;
      match o {
        case Value(v) => value := Some(v);
        case Exception(e) => exp := Some(e);
      }
      threw := false;
    }

    /** The second one: take the watchers to run. */
    method SwapWatchers() returns (taken: seq<nat>)
      requires Valid()
      modifies this`watchers
      ensures Valid() && View() == Taken(old(View())) && taken == old(View()).watchers
    {
      taken := watchers;
      watchers := [];
    }

    method PushWatcher(w: nat)
      requires Valid()
      modifies this`watchers
      ensures Valid() && View() == Queued(old(View()), w)
    {
      watchers := watchers + [w];
    }

    /** setValue or setException with no other thread about: every queued watcher is run, in order, once. */
    method Complete(o: Outcome<T>) returns (threw: bool, run: seq<nat>)
      requires Valid()
      modifies this`isDone, this`value, this`exp, this`watchers
      ensures Valid() && (threw <==> old(View()).outcome.Some?)
      ensures threw ==> run == [] && View() == old(View())
      ensures !threw ==> run == old(View()).watchers && View() == Shared(Some(o), [])
    {
      threw := MarkFinish(o);
      if threw { return threw, []; }
      run := SwapWatchers();
    }

    /** appendWacther with no other thread about. */
    method AppendWatcher(w: nat) returns (run: bool)
      requires Valid()
      modifies this`watchers
      ensures Valid() && (run <==> View().outcome.Some?)
      ensures View() == if run then old(View()) else Queued(old(View()), w)
    {
      run := isDone;
      if !run { PushWatcher(w); }
    }
  }

  // ---- threads

  datatype Setter =
    | Waiting
    | HasMarked
    | Running(todo: seq<nat>)
    | Finished
    | Threw

  datatype Appender = Idle | SawPending | SawDone | Appended

  /** Setter i tries to complete the future with wants[i]; appender w appends watcher w. `ran` is the log of watcher
      runs. The times are history: when the future was marked done, when its watchers were taken, when appender w looked
      and when it queued its watcher, zero meaning never. */
  datatype State<T> = State(
    shared: Shared<T>, wants: seq<Outcome<T>>, setters: seq<Setter>, appenders: seq<Appender>, ran: seq<nat>,
    winner: nat, clock: nat, doneAt: nat, swapAt: nat, lookAt: seq<nat>, queueAt: seq<nat>)

  datatype Step =
    | Mark(i: nat)
    | Swap(i: nat)
    | Run(i: nat)
    | Look(w: nat)
    | Append(w: nat)
    | AtomicAppend(w: nat) // what looking and queueing under one lock would do

  predicate Enabled<T>(s: State<T>, step: Step)
    requires Shaped(s)
  {
    match step
    case Mark(i) => i < |s.setters| && s.setters[i].Waiting?
    case Swap(i) => i < |s.setters| && s.setters[i].HasMarked?
    case Run(i) => i < |s.setters| && s.setters[i].Running?
    case Look(w) => w < |s.appenders| && s.appenders[w].Idle?
    case Append(w) => w < |s.appenders| && (s.appenders[w].SawPending? || s.appenders[w].SawDone?)
    case AtomicAppend(w) => w < |s.appenders| && s.appenders[w].Idle?
  }

  predicate Shaped<T>(s: State<T>) {
    && |s.wants| == |s.setters| && |s.appenders| == |s.lookAt| == |s.queueAt|
  }

  function DoMark<T>(s: State<T>, i: nat): State<T>
    requires Shaped(s) && i < |s.setters|
  {
    var shared := Marked(s.shared, s.wants[i]);
    if s.shared.outcome.Some? then s.(setters := s.setters[i := Threw])
    else s.(shared := shared, setters := s.setters[i := HasMarked], winner := i, doneAt := s.clock)
  }

  function DoRun<T>(s: State<T>, i: nat, todo: seq<nat>): State<T>
    requires Shaped(s) && i < |s.setters|
  {
    if todo == [] then s.(setters := s.setters[i := Finished])
    else s.(setters := s.setters[i := Running(todo[1..])], ran := s.ran + [todo[0]])
  }

  function DoLook<T>(s: State<T>, w: nat): State<T>
    requires Shaped(s) && w < |s.appenders|
  {
    s.(appenders := s.appenders[w := if s.shared.outcome.Some? then SawDone else SawPending],
       lookAt := s.lookAt[w := s.clock])
  }

  function DoQueue<T>(s: State<T>, w: nat): State<T>
    requires Shaped(s) && w < |s.appenders|
  {
    s.(shared := Queued(s.shared, w), appenders := s.appenders[w := Appended], queueAt := s.queueAt[w := s.clock])
  }

  function Do<T>(s: State<T>, step: Step): (r: State<T>)
    requires Shaped(s) && Enabled(s, step)
    ensures Shaped(r) && r.wants == s.wants
  {
    var next := match step
      case Mark(i) => DoMark(s, i)
      case Swap(i) =>
        s.(shared := Taken(s.shared), setters := s.setters[i := Running(s.shared.watchers)], swapAt := s.clock)
      case Run(i) => DoRun(s, i, s.setters[i].todo)
      case Look(w) => DoLook(s, w)
      case Append(w) =>
        if s.appenders[w].SawDone? then s.(ran := s.ran + [w], appenders := s.appenders[w := Appended])
        else DoQueue(s, w)
      case AtomicAppend(w) => if s.shared.outcome.Some? then DoLook(s, w) else DoQueue(DoLook(s, w), w);
    next.(clock := s.clock + 1)
  }

  function Initial<T>(wants: seq<Outcome<T>>, watchers: nat): (s: State<T>)
    ensures Shaped(s)
  {
    State(Shared(None, []), wants, seq(|wants|, _ => Waiting), seq(watchers, _ => Idle), [], 0, 1, 0, 0,
          seq(watchers, _ => 0), seq(watchers, _ => 0))
  }

  ghost predicate Legal<T>(s: State<T>, steps: seq<Step>)
    requires Shaped(s)
    decreases |steps|
  {
    steps != [] ==> Enabled(s, steps[0]) && Legal(Do(s, steps[0]), steps[1..])
  }

  ghost function Final<T>(s: State<T>, steps: seq<Step>): (r: State<T>)
    requires Shaped(s) && Legal(s, steps)
    ensures Shaped(r)
    decreases |steps|
  {
    if steps == [] then s else Final(Do(s, steps[0]), steps[1..])
  }

  // ---- the invariant

  /** The watchers taken but not yet run. */
  function Todo<T>(s: State<T>): seq<nat> {
    if s.shared.outcome.Some? && s.winner < |s.setters| && s.setters[s.winner].Running?
    then s.setters[s.winner].todo else []
  }

  /** One setter at most got past marking, and it decided the outcome. */
  ghost predicate OneWinner<T>(s: State<T>)
    requires Shaped(s)
  {
    && (s.shared.outcome.None? ==> forall i :: 0 <= i < |s.setters| ==> s.setters[i].Waiting?)
    && (s.shared.outcome.Some? ==>
          && s.winner < |s.setters| && s.shared.outcome == Some(s.wants[s.winner])
          && !s.setters[s.winner].Waiting? && !s.setters[s.winner].Threw?
          && forall i :: 0 <= i < |s.setters| && i != s.winner ==> s.setters[i].Waiting? || s.setters[i].Threw?)
  }

  ghost predicate Timed<T>(s: State<T>)
    requires Shaped(s)
  {
    && (s.shared.outcome.None? ==> s.doneAt == 0)
    && (s.shared.outcome.Some? ==> 0 < s.doneAt < s.clock && s.winner < |s.setters|)
    && (s.shared.outcome.None? || s.setters[s.winner].HasMarked? ==> s.swapAt == 0)
    && (s.shared.outcome.Some? && !s.setters[s.winner].HasMarked? ==> s.doneAt < s.swapAt < s.clock)
    && s.clock > 0
  }

  /** Where watcher w is: nowhere before it is appended, then in one place, its history saying which. */
  ghost predicate Placed<T>(s: State<T>, w: nat)
    requires Shaped(s) && w < |s.appenders|
  {
    && (!s.appenders[w].Appended? <==> w !in s.shared.watchers && w !in Todo(s) && w !in s.ran)
    && (s.appenders[w].SawPending? && s.shared.outcome.Some? ==> s.lookAt[w] < s.doneAt)
    && (s.appenders[w].SawDone? ==> s.shared.outcome.Some? && s.doneAt < s.lookAt[w])
    && s.lookAt[w] < s.clock
    && (w in s.shared.watchers ==>
          && 0 < s.queueAt[w] < s.clock && s.swapAt < s.queueAt[w]
          && (s.shared.outcome.Some? ==> s.lookAt[w] < s.doneAt))
    && (w in Todo(s) ==> s.queueAt[w] < s.swapAt)
    && (w in s.ran ==> s.shared.outcome.Some? && (s.doneAt < s.lookAt[w] || s.queueAt[w] < s.swapAt))
  }

  ghost predicate Apart<T>(s: State<T>) {
    && NoRepeats(s.shared.watchers) && NoRepeats(Todo(s)) && NoRepeats(s.ran)
    && (forall w :: w in s.shared.watchers ==> w !in Todo(s) && w !in s.ran)
    && (forall w :: w in Todo(s) ==> w !in s.ran)
    && (forall w :: w in s.shared.watchers || w in Todo(s) || w in s.ran ==> w < |s.appenders|)
  }

  ghost predicate Inv<T>(s: State<T>) {
    && Shaped(s) && OneWinner(s) && Timed(s) && Apart(s)
    && forall w: nat :: w < |s.appenders| ==> Placed(s, w)
  }

  lemma InitialKeeps<T>(wants: seq<Outcome<T>>, watchers: nat)
    ensures Inv(Initial(wants, watchers))
  {
  }

  lemma MarkKeeps<T>(s: State<T>, i: nat)
    requires Inv(s) && Enabled(s, Mark(i))
    ensures Inv(Do(s, Mark(i)))
  {
    var r := Do(s, Mark(i));
    assert Todo(r) == Todo(s) && r.ran == s.ran && r.shared.watchers == s.shared.watchers;
    assert s.shared.outcome.Some? ==> s.winner != i;
    forall w: nat | w < |r.appenders| ensures Placed(r, w) { assert Placed(s, w); }
  }

  lemma SwapKeeps<T>(s: State<T>, i: nat)
    requires Inv(s) && Enabled(s, Swap(i))
    ensures Inv(Do(s, Swap(i)))
  {
    var r := Do(s, Swap(i));
    assert s.shared.outcome.Some? && s.winner == i;
    forall w: nat | w < |r.appenders| ensures Placed(r, w) { assert Placed(s, w); }
  }

  lemma RunKeeps<T>(s: State<T>, i: nat)
    requires Inv(s) && Enabled(s, Run(i))
    ensures Inv(Do(s, Run(i)))
  {
    var r := Do(s, Run(i));
    assert s.shared.outcome.Some? && s.winner == i;
    var todo := s.setters[i].todo;
    assert Todo(s) == todo;
    if todo != [] {
      assert todo == [todo[0]] + todo[1..];
      assert todo[0] in todo;
      assert Apart(r);
    }
    forall w: nat | w < |r.appenders| ensures Placed(r, w) { assert Placed(s, w); }
  }

  lemma LookKeeps<T>(s: State<T>, w: nat)
    requires Inv(s) && Enabled(s, Look(w))
    ensures Inv(Do(s, Look(w)))
  {
    var r := Do(s, Look(w));
    forall v: nat | v < |r.appenders| ensures Placed(r, v) { assert Placed(s, v); }
  }

  lemma AppendKeeps<T>(s: State<T>, w: nat)
    requires Inv(s) && Enabled(s, Append(w))
    ensures Inv(Do(s, Append(w)))
  {
    var r := Do(s, Append(w));
    assert Placed(s, w);
    assert Apart(r);
    forall v: nat | v < |r.appenders| ensures Placed(r, v) { assert Placed(s, v); }
  }

  lemma AtomicAppendKeeps<T>(s: State<T>, w: nat)
    requires Inv(s) && Enabled(s, AtomicAppend(w))
    ensures Inv(Do(s, AtomicAppend(w)))
  {
    var r := Do(s, AtomicAppend(w));
    assert Placed(s, w);
    assert Apart(r);
    forall v: nat | v < |r.appenders| ensures Placed(r, v) { assert Placed(s, v); }
  }

  lemma StepKeeps<T>(s: State<T>, step: Step)
    requires Inv(s) && Enabled(s, step)
    ensures Inv(Do(s, step))
  {
    match step {
      case Mark(i) => MarkKeeps(s, i);
      case Swap(i) => SwapKeeps(s, i);
      case Run(i) => RunKeeps(s, i);
      case Look(w) => LookKeeps(s, w);
      case Append(w) => AppendKeeps(s, w);
      case AtomicAppend(w) => AtomicAppendKeeps(s, w);
    }
  }

  lemma {:induction false} RunsKeep<T>(s: State<T>, steps: seq<Step>)
    requires Inv(s) && Legal(s, steps)
    ensures Inv(Final(s, steps))
    decreases |steps|
  {
    if steps != [] {
      StepKeeps(s, steps[0]);
      RunsKeep(Do(s, steps[0]), steps[1..]);
    }
  }

  // ---- what holds of every run

  /** Whatever happens next, an outcome stays as it is. */
  lemma {:induction false} OutcomeIsFixed<T>(s: State<T>, steps: seq<Step>)
    requires Shaped(s) && Legal(s, steps) && s.shared.outcome.Some?
    ensures Final(s, steps).shared.outcome == s.shared.outcome
    decreases |steps|
  {
    if steps != [] { OutcomeIsFixed(Do(s, steps[0]), steps[1..]); }
  }

  /** No watcher runs twice, and none before the future is done. */
  lemma RunsAtMostOnce<T>(wants: seq<Outcome<T>>, watchers: nat, steps: seq<Step>)
    requires Legal(Initial(wants, watchers), steps)
    ensures var s := Final(Initial(wants, watchers), steps);
      NoRepeats(s.ran) && (s.ran != [] ==> s.shared.outcome.Some?)
  {
    InitialKeeps(wants, watchers);
    RunsKeep(Initial(wants, watchers), steps);
    var s := Final(Initial(wants, watchers), steps);
    if s.ran != [] {
      assert s.ran[0] in s.ran;
      assert Placed(s, s.ran[0]);
    }
  }

  predicate Quiescent<T>(s: State<T>) {
    && (forall i :: 0 <= i < |s.setters| ==> s.setters[i].Finished? || s.setters[i].Threw?)
    && (forall w :: 0 <= w < |s.appenders| ==> s.appenders[w].Appended?)
  }

  /** Once every setter is through, one succeeded, every other one threw, and the outcome is what that one wanted. */
  lemma OneSetterSucceeds<T>(wants: seq<Outcome<T>>, watchers: nat, steps: seq<Step>)
    requires Legal(Initial(wants, watchers), steps) && wants != []
    requires Quiescent(Final(Initial(wants, watchers), steps))
    ensures var s := Final(Initial(wants, watchers), steps);
      && |s.setters| == |wants|
      && exists i: nat ::
        && i < |wants| && s.setters[i].Finished? && s.shared.outcome == Some(wants[i])
        && forall j: nat :: j < |wants| && j != i ==> s.setters[j].Threw?
  {
    var s0 := Initial(wants, watchers);
    InitialKeeps(wants, watchers);
    RunsKeep(s0, steps);
    WantsStay(s0, steps);
    var s := Final(s0, steps);
    assert !s.setters[0].Waiting?;
    assert s.setters[s.winner].Finished?;
  }

  lemma {:induction false} WantsStay<T>(s: State<T>, steps: seq<Step>)
    requires Shaped(s) && Legal(s, steps)
    ensures Final(s, steps).wants == s.wants && |Final(s, steps).appenders| == |s.appenders|
    decreases |steps|
  {
    if steps != [] { WantsStay(Do(s, steps[0]), steps[1..]); }
  }

  /** The appender looked before the future was done and queued its watcher after the queue had been taken. */
  ghost predicate FellInTheWindow<T>(s: State<T>, w: nat)
    requires Shaped(s) && w < |s.appenders|
  {
    s.shared.outcome.Some? && s.lookAt[w] < s.doneAt < s.swapAt < s.queueAt[w]
  }

  /** When all is quiet and the future is done, a watcher has not run exactly if it fell into the window between the two
      lock sections. */
  lemma LostExactlyInTheWindow<T>(wants: seq<Outcome<T>>, watchers: nat, steps: seq<Step>, w: nat)
    requires Legal(Initial(wants, watchers), steps) && w < watchers && wants != []
    requires Quiescent(Final(Initial(wants, watchers), steps))
    ensures var s := Final(Initial(wants, watchers), steps);
      Shaped(s) && w < |s.appenders| && (w !in s.ran <==> FellInTheWindow(s, w))
  {
    var s0 := Initial(wants, watchers);
    InitialKeeps(wants, watchers);
    RunsKeep(s0, steps);
    WantsStay(s0, steps);
    var s := Final(s0, steps);
    assert !s.setters[0].Waiting?;
    assert s.setters[s.winner].Finished?;
    assert Placed(s, w);
  }

  /** A future nobody completes keeps every watcher and runs none. */
  lemma NeverDoneNeverRun<T>(watchers: nat, steps: seq<Step>, w: nat)
    requires Legal(Initial<T>([], watchers), steps) && w < watchers
    requires Quiescent(Final(Initial<T>([], watchers), steps))
    ensures var s := Final(Initial<T>([], watchers), steps); w in s.shared.watchers && s.ran == []
  {
    var s0 := Initial<T>([], watchers);
    InitialKeeps<T>([], watchers);
    RunsKeep(s0, steps);
    WantsStay(s0, steps);
    var s := Final(s0, steps);
    assert Placed(s, w);
    RunsAtMostOnce<T>([], watchers, steps);
  }

  /** Were looking and queueing one lock section, every watcher would run exactly once. */
  lemma AtomicAppendLosesNothing<T>(wants: seq<Outcome<T>>, watchers: nat, steps: seq<Step>, w: nat)
    requires Legal(Initial(wants, watchers), steps) && w < watchers && wants != []
    requires forall k :: 0 <= k < |steps| ==> !steps[k].Look?
    requires Quiescent(Final(Initial(wants, watchers), steps))
    ensures w in Final(Initial(wants, watchers), steps).ran && NoRepeats(Final(Initial(wants, watchers), steps).ran)
  {
    var s0 := Initial(wants, watchers);
    InitialKeeps(wants, watchers);
    AtomicTimes(s0, steps);
    LostExactlyInTheWindow(wants, watchers, steps, w);
    RunsAtMostOnce(wants, watchers, steps);
  }

  ghost predicate SameMoment<T>(s: State<T>)
    requires Shaped(s)
  {
    forall w :: 0 <= w < |s.appenders| ==>
      && !s.appenders[w].SawPending?
      && (s.queueAt[w] == s.lookAt[w] || s.queueAt[w] == 0)
      && (s.appenders[w].Idle? ==> s.queueAt[w] == 0)
  }

  lemma {:induction false} AtomicTimes<T>(s: State<T>, steps: seq<Step>)
    requires Shaped(s) && Legal(s, steps) && SameMoment(s)
    requires forall k :: 0 <= k < |steps| ==> !steps[k].Look?
    ensures SameMoment(Final(s, steps))
    decreases |steps|
  {
    if steps != [] { AtomicTimes(Do(s, steps[0]), steps[1..]); }
  }

  /** A queued watcher goes behind the others; the setter that completed the future takes them all and runs them in the
      order in which they were queued. */
  lemma QueueingGoesBehind<T>(s: State<T>, w: nat)
    requires Shaped(s) && Enabled(s, Append(w)) && s.appenders[w].SawPending?
    ensures Do(s, Append(w)).shared == Shared(s.shared.outcome, s.shared.watchers + [w])
  {
  }

  lemma WatchersRunInOrder<T>(s: State<T>, i: nat, n: nat)
    requires Shaped(s) && Enabled(s, Swap(i)) && n <= |s.shared.watchers|
    ensures Do(s, Swap(i)).shared == Shared(s.shared.outcome, [])
    ensures var runs := seq(n, _ => Run(i));
      && Legal(Do(s, Swap(i)), runs)
      && Final(Do(s, Swap(i)), runs).ran == s.ran + s.shared.watchers[..n]
  {
    RunsInOrder(Do(s, Swap(i)), i, s.shared.watchers, n);
  }

  lemma {:induction false} RunsInOrder<T>(s: State<T>, i: nat, todo: seq<nat>, n: nat)
    requires Shaped(s) && i < |s.setters| && s.setters[i] == Running(todo) && n <= |todo|
    ensures var runs := seq(n, _ => Run(i));
      Legal(s, runs) && Final(s, runs).ran == s.ran + todo[..n]
    decreases n
  {
    if n > 0 {
      var runs := seq(n, _ => Run(i));
      assert runs[1..] == seq(n - 1, _ => Run(i));
      RunsInOrder(Do(s, Run(i)), i, todo[1..], n - 1);
      assert s.ran + [todo[0]] + todo[1..][..n - 1] == s.ran + todo[..n];
    }
  }

  /** One setter and one appender are enough to lose a watcher. */
  lemma AWatcherIsLost<T>(o: Outcome<T>) returns (steps: seq<Step>)
    ensures var s0 := Initial([o], 1);
      && Legal(s0, steps) && Quiescent(Final(s0, steps))
      && Final(s0, steps).shared == Shared(Some(o), [0]) && Final(s0, steps).ran == []
  {
    var s0 := State(Shared(None, []), [o], [Waiting], [Idle], [], 0, 1, 0, 0, [0], [0]);
    var s1 := State(Shared(None, []), [o], [Waiting], [SawPending], [], 0, 2, 0, 0, [1], [0]);
    var s2 := State(Shared(Some(o), []), [o], [HasMarked], [SawPending], [], 0, 3, 2, 0, [1], [0]);
    var s3 := State(Shared(Some(o), []), [o], [Running([])], [SawPending], [], 0, 4, 2, 3, [1], [0]);
    var s4 := State(Shared(Some(o), [0]), [o], [Running([])], [Appended], [], 0, 5, 2, 3, [1], [4]);
    assert Initial([o], 1) == s0;
    assert Do(s0, Look(0)) == s1;
    assert Do(s1, Mark(0)) == s2;
    assert Do(s2, Swap(0)) == s3;
    assert Do(s3, Append(0)) == s4;
    steps := [Run(0)] + [];
    OneMore(s4, Run(0), []);
    OneMore(s3, Append(0), steps);
    steps := [Append(0)] + steps;
    OneMore(s2, Swap(0), steps);
    steps := [Swap(0)] + steps;
    OneMore(s1, Mark(0), steps);
    steps := [Mark(0)] + steps;
    OneMore(s0, Look(0), steps);
    steps := [Look(0)] + steps;
  }

  lemma OneMore<T>(s: State<T>, step: Step, rest: seq<Step>)
    requires Shaped(s) && Enabled(s, step) && Legal(Do(s, step), rest)
    ensures Legal(s, [step] + rest) && Final(s, [step] + rest) == Final(Do(s, step), rest)
  {
    assert ([step] + rest)[1..] == rest;
  }
}
