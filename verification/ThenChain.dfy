/**
 Futures linked by `then`. Registration, completion of the sources, the running of watchers and the forwarding of inner
 futures happen in any order; what every future is completed with does not depend on it. Appending a watcher is taken as
 one step here (module Promise says what happens when it is not).
 */
module ThenChain {
  import opened Collections
  import opened Promise

  /** What a watcher does with the outcome it is given. */
  datatype Reaction<T> =
    | Returns(v: T)
    | Throws(e: T)
    | ReturnsFuture(k: nat) // future number k
    | ReturnsNoFuture       // an uninitialised future, on which `then` throws

  datatype Node<!T> =
    | Source(o: Outcome<T>)                                   // completed from outside, with o
    | Then(parent: nat, watcher: Outcome<T> -> Reaction<T>)   // what `then` on the parent returned

  /** `noFuture` is the exception thrown by `then` on an uninitialised future. */
  datatype Program<!T> = Program(nodes: seq<Node<T>>, noFuture: T)

  /** The futures are numbered so that each waits only for futures of smaller number. */
  ghost predicate Acyclic<T(!new)>(p: Program<T>) {
    forall i :: 0 <= i < |p.nodes| && p.nodes[i].Then? ==>
      && p.nodes[i].parent < i
      && forall o: Outcome<T> :: p.nodes[i].watcher(o).ReturnsFuture? ==> p.nodes[i].watcher(o).k < i
  }

  /** What future i is completed with when its watcher is given o: an inner future is flattened, an exception kept. */
  ghost function Applied<T(!new)>(p: Program<T>, i: nat, w: Outcome<T> -> Reaction<T>, o: Outcome<T>): Outcome<T>
    requires Acyclic(p) && i < |p.nodes| && (w(o).ReturnsFuture? ==> w(o).k < i)
    decreases i, 0
  {
    match w(o)
    case Returns(v) => Value(v)
    case Throws(e) => Exception(e)
    case ReturnsFuture(k) => Meaning(p, k)
    case ReturnsNoFuture => Exception(p.noFuture)
  }

  /** The outcome a future ought to have. */
  ghost function Meaning<T(!new)>(p: Program<T>, i: nat): Outcome<T>
    requires Acyclic(p) && i < |p.nodes|
    decreases i, 1
  {
    match p.nodes[i]
    case Source(o) => o
    case Then(parent, watcher) => Applied(p, i, watcher, Meaning(p, parent))
  }

  datatype Phase =
    | Unregistered
    | Registered
    | Forwarding(k: nat) // the watcher returned future k, on which a ForwardWatcher now waits
    | Settled

  datatype State<T> = State(outcome: seq<Option<Outcome<T>>>, phase: seq<Phase>)

  datatype Step =
    | Complete(i: nat)
    | Register(i: nat)
    | RunWatcher(i: nat)
    | Forward(i: nat)

  predicate Shaped<T>(p: Program<T>, s: State<T>) {
    && |s.outcome| == |s.phase| == |p.nodes|
    && forall i :: 0 <= i < |p.nodes| && p.nodes[i].Then? ==> p.nodes[i].parent < |p.nodes|
  }

  predicate Enabled<T>(p: Program<T>, s: State<T>, step: Step)
    requires Shaped(p, s)
  {
    match step
    case Complete(i) => i < |p.nodes| && p.nodes[i].Source? && s.outcome[i].None?
    case Register(i) => i < |p.nodes| && p.nodes[i].Then? && s.phase[i].Unregistered?
    case RunWatcher(i) =>
      i < |p.nodes| && p.nodes[i].Then? && s.phase[i].Registered? && s.outcome[p.nodes[i].parent].Some?
    case Forward(i) =>
      i < |p.nodes| && s.phase[i].Forwarding? && s.phase[i].k < |p.nodes| && s.outcome[s.phase[i].k].Some?
  }

  function Settle<T>(s: State<T>, i: nat, o: Outcome<T>): State<T>
    requires i < |s.outcome| == |s.phase|
  {
    State.State(s.outcome[i := Some(o)], s.phase[i := Settled])
  }

  function Do<T>(p: Program<T>, s: State<T>, step: Step): (r: State<T>)
    requires Shaped(p, s) && Enabled(p, s, step)
    ensures Shaped(p, r)
  {
    match step
    case Complete(i) => Settle(s, i, p.nodes[i].o)
    case Register(i) => s.(phase := s.phase[i := Registered])
    case RunWatcher(i) =>
      var node := p.nodes[i];
      (match node.watcher(s.outcome[node.parent].value)
       case Returns(v) => Settle(s, i, Value(v))
       case Throws(e) => Settle(s, i, Exception(e))
       case ReturnsFuture(k) => s.(phase := s.phase[i := Forwarding(k)])
       case ReturnsNoFuture => Settle(s, i, Exception(p.noFuture)))
    case Forward(i) => Settle(s, i, s.outcome[s.phase[i].k].value)
  }

  function Initial<T>(p: Program<T>): State<T> {
    State.State(seq(|p.nodes|, _ => None), seq(|p.nodes|, _ => Unregistered))
  }

  ghost predicate Legal<T>(p: Program<T>, s: State<T>, steps: seq<Step>)
    requires Shaped(p, s)
    decreases |steps|
  {
    steps != [] ==> Enabled(p, s, steps[0]) && Legal(p, Do(p, s, steps[0]), steps[1..])
  }

  ghost function Final<T>(p: Program<T>, s: State<T>, steps: seq<Step>): (r: State<T>)
    requires Shaped(p, s) && Legal(p, s, steps)
    ensures Shaped(p, r)
    decreases |steps|
  {
    if steps == [] then s else Final(p, Do(p, s, steps[0]), steps[1..])
  }

  ghost predicate Quiescent<T>(p: Program<T>, s: State<T>)
    requires Shaped(p, s)
  {
    forall step :: !Enabled(p, s, step)
  }

  // ---- confluence

  /** A completed future has the outcome it ought to have; a forwarding one will get it from its inner future. */
  ghost predicate FineAt<T(!new)>(p: Program<T>, s: State<T>, i: nat)
    requires Acyclic(p) && Shaped(p, s) && i < |p.nodes|
  {
    && (s.outcome[i].Some? ==> s.outcome[i].value == Meaning(p, i))
    && (s.phase[i].Forwarding? ==> s.phase[i].k < i && Meaning(p, i) == Meaning(p, s.phase[i].k))
    && (s.phase[i].Settled? <==> s.outcome[i].Some?)
  }

  ghost predicate Fine<T(!new)>(p: Program<T>, s: State<T>) {
    Acyclic(p) && Shaped(p, s) && forall i: nat :: i < |p.nodes| ==> FineAt(p, s, i)
  }

  lemma StepKeeps<T(!new)>(p: Program<T>, s: State<T>, step: Step)
    requires Fine(p, s) && Enabled(p, s, step)
    ensures Fine(p, Do(p, s, step))
  {
    var r := Do(p, s, step);
    forall i: nat | i < |p.nodes| ensures FineAt(p, r, i) {
      assert FineAt(p, s, i);
      match step {
        case Complete(_) =>
        case Register(_) =>
        case RunWatcher(j) => assert FineAt(p, s, p.nodes[j].parent);
        case Forward(j) => assert FineAt(p, s, j) && FineAt(p, s, s.phase[j].k);
      }
    }
  }

  lemma {:induction false} RunsKeep<T(!new)>(p: Program<T>, s: State<T>, steps: seq<Step>)
    requires Fine(p, s) && Legal(p, s, steps)
    ensures Fine(p, Final(p, s, steps))
    decreases |steps|
  {
    if steps != [] {
      StepKeeps(p, s, steps[0]);
      RunsKeep(p, Do(p, s, steps[0]), steps[1..]);
    }
  }

  lemma {:induction false} QuiescentIsComplete<T(!new)>(p: Program<T>, s: State<T>, i: nat)
    requires Fine(p, s) && Quiescent(p, s) && i < |p.nodes|
    ensures s.outcome[i] == Some(Meaning(p, i))
    decreases i
  {
    assert FineAt(p, s, i);
    assert !Enabled(p, s, Complete(i)) && !Enabled(p, s, Register(i));
    assert !Enabled(p, s, RunWatcher(i)) && !Enabled(p, s, Forward(i));
    match p.nodes[i] {
      case Source(_) =>
      case Then(parent, _) =>
        QuiescentIsComplete(p, s, parent);
        if s.phase[i].Forwarding? { QuiescentIsComplete(p, s, s.phase[i].k); }
    }
  }

  /** In any run, whatever is completed is completed with its meaning; when nothing can happen any more, everything
      is. */
  lemma Confluent<T(!new)>(p: Program<T>, steps: seq<Step>)
    requires Acyclic(p) && Shaped(p, Initial(p)) && Legal(p, Initial(p), steps)
    ensures var s := Final(p, Initial(p), steps);
      && (forall i: nat :: i < |p.nodes| && s.outcome[i].Some? ==> s.outcome[i].value == Meaning(p, i))
      && (Quiescent(p, s) ==> forall i: nat :: i < |p.nodes| ==> s.outcome[i] == Some(Meaning(p, i)))
  {
    RunsKeep(p, Initial(p), steps);
    var s := Final(p, Initial(p), steps);
    forall i: nat | i < |p.nodes| && s.outcome[i].Some? ensures s.outcome[i].value == Meaning(p, i) {
      assert FineAt(p, s, i);
    }
    if Quiescent(p, s) {
      forall i: nat | i < |p.nodes| ensures s.outcome[i] == Some(Meaning(p, i)) { QuiescentIsComplete(p, s, i); }
    }
  }

  /** Two runs that came to rest agree on every future. */
  lemma OrderDoesNotMatter<T(!new)>(p: Program<T>, a: seq<Step>, b: seq<Step>)
    requires Acyclic(p) && Shaped(p, Initial(p)) && Legal(p, Initial(p), a) && Legal(p, Initial(p), b)
    requires Quiescent(p, Final(p, Initial(p), a)) && Quiescent(p, Final(p, Initial(p), b))
    ensures Final(p, Initial(p), a).outcome == Final(p, Initial(p), b).outcome
  {
    Confluent(p, a);
    Confluent(p, b);
  }

  /** What a future is completed with, told from the outcomes alone: a source with its own, any other with what its
      watcher made of the parent's outcome; an inner future's outcome is handed on, an exception stays one. */
  lemma RestIsConsistent<T(!new)>(p: Program<T>, steps: seq<Step>, i: nat)
    requires Acyclic(p) && Shaped(p, Initial(p)) && Legal(p, Initial(p), steps) && i < |p.nodes|
    requires Quiescent(p, Final(p, Initial(p), steps))
    ensures var outcome := Final(p, Initial(p), steps).outcome;
      && outcome[i].Some?
      && match p.nodes[i]
         case Source(o) => outcome[i] == Some(o)
         case Then(parent, watcher) =>
           && outcome[parent].Some?
           && match watcher(outcome[parent].value)
              case Returns(v) => outcome[i] == Some(Value(v))
              case Throws(e) => outcome[i] == Some(Exception(e))
              case ReturnsFuture(k) => k < i && outcome[i] == outcome[k]
              case ReturnsNoFuture => outcome[i] == Some(Exception(p.noFuture))
  {
    Confluent(p, steps);
    var s := Final(p, Initial(p), steps);
    assert s.outcome[i] == Some(Meaning(p, i));
    if p.nodes[i].Then? {
      var parent, watcher := p.nodes[i].parent, p.nodes[i].watcher;
      assert s.outcome[parent] == Some(Meaning(p, parent));
      assert Meaning(p, i) == Applied(p, i, watcher, Meaning(p, parent));
      if watcher(Meaning(p, parent)).ReturnsFuture? {
        var k := watcher(Meaning(p, parent)).k;
        assert k < i && s.outcome[k] == Some(Meaning(p, k));
      }
    }
  }

  // ---- every run comes to rest

  function Rest(phase: Phase): (n: nat)
    ensures n <= 3
  {
    match phase
    case Unregistered => 3
    case Registered => 2
    case Forwarding(_) => 1
    case Settled => 0
  }

  function ToDo(phases: seq<Phase>): (n: nat)
    ensures n <= 3 * |phases|
  {
    if phases == [] then 0 else ToDo(phases[..|phases| - 1]) + Rest(phases[|phases| - 1])
  }

  lemma {:induction false} ToDoAfter(phases: seq<Phase>, i: nat, x: Phase)
    requires i < |phases|
    ensures ToDo(phases[i := x]) == ToDo(phases) - Rest(phases[i]) + Rest(x)
  {
    var n := |phases| - 1;
    if i < n {
      ToDoAfter(phases[..n], i, x);
      assert phases[i := x][..n] == phases[..n][i := x];
    } else {
      assert phases[i := x][..n] == phases[..n];
    }
  }

  lemma StepTakesAway<T(!new)>(p: Program<T>, s: State<T>, step: Step)
    requires Fine(p, s) && Enabled(p, s, step)
    ensures ToDo(Do(p, s, step).phase) < ToDo(s.phase)
  {
    var i := step.i;
    assert FineAt(p, s, i);
    ToDoAfter(s.phase, i, Do(p, s, step).phase[i]);
  }

  /** No run is longer than three steps a future. */
  lemma {:induction false} RunsAreFinite<T(!new)>(p: Program<T>, s: State<T>, steps: seq<Step>)
    requires Fine(p, s) && Legal(p, s, steps)
    ensures |steps| <= ToDo(s.phase) <= 3 * |p.nodes|
    decreases |steps|
  {
    if steps != [] {
      StepKeeps(p, s, steps[0]);
      StepTakesAway(p, s, steps[0]);
      RunsAreFinite(p, Do(p, s, steps[0]), steps[1..]);
    }
  }

  // ---- a straight chain is a fold

  /** Futures first..last, each the `then` of the one before. */
  ghost predicate Straight<T>(p: Program<T>, first: nat, last: nat) {
    first <= last < |p.nodes| && forall i :: first < i <= last ==> p.nodes[i].Then? && p.nodes[i].parent == i - 1
  }

  /** The watchers of futures first + 1 to `last`, applied one after the other. */
  ghost function Fold<T(!new)>(p: Program<T>, first: nat, last: nat, o: Outcome<T>): Outcome<T>
    requires Acyclic(p) && Straight(p, first, last)
    decreases last
  {
    if first == last then o else Applied(p, last, p.nodes[last].watcher, Fold(p, first, last - 1, o))
  }

  lemma {:induction false} ChainIsFold<T(!new)>(p: Program<T>, first: nat, last: nat)
    requires Acyclic(p) && Straight(p, first, last)
    ensures Meaning(p, last) == Fold(p, first, last, Meaning(p, first))
    decreases last
  {
    if first < last { ChainIsFold(p, first, last - 1); }
  }
}
