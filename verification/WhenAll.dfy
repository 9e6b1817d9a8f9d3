/**
 WhenAll over a vector: one callback per future writes its slot, then decrements a shared count; the callback that
 brings the count to zero sets the combined promise. Callbacks of different futures may run on different threads, so
 their steps interleave freely.
 */
module WhenAll {
  import opened Collections

  datatype Callback = Pending | Written | Last | Returned

  /** `sets` counts how often the combined promise was set, `result` is what it was last set to. */
  datatype State<F> = State(
    slots: seq<Option<F>>, waitCount: int, callbacks: seq<Callback>, result: Option<seq<Option<F>>>, sets: nat)

  datatype Step = Write(k: nat) | Decrement(k: nat) | Fire(k: nat)

  predicate Enabled<F>(s: State<F>, step: Step)
  {
    match step
    case Write(k) => k < |s.callbacks| && s.callbacks[k].Pending?
    case Decrement(k) => k < |s.callbacks| && s.callbacks[k].Written?
    case Fire(k) => k < |s.callbacks| && s.callbacks[k].Last?
  }

  predicate Shaped<F>(s: State<F>, futures: seq<F>) {
    |s.slots| == |s.callbacks| == |futures|
  }

  function Do<F>(s: State<F>, futures: seq<F>, step: Step): (r: State<F>)
    requires Shaped(s, futures) && Enabled(s, step)
    ensures Shaped(r, futures)
  {
    match step
    case Write(k) => s.(slots := s.slots[k := Some(futures[k])], callbacks := s.callbacks[k := Written])
    case Decrement(k) =>
      s.(waitCount := s.waitCount - 1, callbacks := s.callbacks[k := if s.waitCount > 1 then Returned else Last])
    case Fire(k) => s.(result := Some(s.slots), sets := s.sets + 1, callbacks := s.callbacks[k := Returned])
  }

  function Initial<F>(futures: seq<F>): (s: State<F>)
    ensures Shaped(s, futures)
  {
    State.State(seq(|futures|, _ => None), |futures|, seq(|futures|, _ => Pending), None, 0)
  }

  ghost predicate Legal<F>(s: State<F>, futures: seq<F>, steps: seq<Step>)
    requires Shaped(s, futures)
    decreases |steps|
  {
    steps != [] ==> Enabled(s, steps[0]) && Legal(Do(s, futures, steps[0]), futures, steps[1..])
  }

  ghost function Final<F>(s: State<F>, futures: seq<F>, steps: seq<Step>): (r: State<F>)
    requires Shaped(s, futures) && Legal(s, futures, steps)
    ensures Shaped(r, futures)
    decreases |steps|
  {
    if steps == [] then s else Final(Do(s, futures, steps[0]), futures, steps[1..])
  }

  // ---- counting callbacks

  /** How many callbacks have yet to decrement. */
  function Outstanding(c: seq<Callback>): (n: nat)
    ensures n <= |c|
  {
    if c == [] then 0 else Outstanding(c[..|c| - 1]) + if c[|c| - 1].Pending? || c[|c| - 1].Written? then 1 else 0
  }

  /** How many callbacks saw the count reach zero and have yet to set the promise. */
  function ToFire(c: seq<Callback>): (n: nat) {
    if c == [] then 0 else ToFire(c[..|c| - 1]) + if c[|c| - 1].Last? then 1 else 0
  }

  lemma {:induction false} CountsAfter(c: seq<Callback>, k: nat, x: Callback)
    requires k < |c|
    ensures Outstanding(c[k := x]) == Outstanding(c)
      - (if c[k].Pending? || c[k].Written? then 1 else 0) + if x.Pending? || x.Written? then 1 else 0
    ensures ToFire(c[k := x]) == ToFire(c) - (if c[k].Last? then 1 else 0) + if x.Last? then 1 else 0
  {
    if k < |c| - 1 {
      CountsAfter(c[..|c| - 1], k, x);
      assert c[k := x][..|c| - 1] == c[..|c| - 1][k := x];
    } else {
      assert c[k := x][..|c| - 1] == c[..|c| - 1];
    }
  }

  lemma {:induction false} NoneOutstanding(c: seq<Callback>, k: nat)
    requires k < |c| && Outstanding(c) == 0
    ensures !c[k].Pending? && !c[k].Written?
  {
    if k < |c| - 1 { NoneOutstanding(c[..|c| - 1], k); }
  }

  lemma {:induction false} NoneToFire(c: seq<Callback>, k: nat)
    requires k < |c| && ToFire(c) == 0
    ensures !c[k].Last?
  {
    if k < |c| - 1 { NoneToFire(c[..|c| - 1], k); }
  }

  lemma {:induction false} AllReturned(c: seq<Callback>)
    requires forall k :: 0 <= k < |c| ==> c[k].Returned?
    ensures Outstanding(c) == 0 && ToFire(c) == 0
  {
    if c != [] { AllReturned(c[..|c| - 1]); }
  }

  lemma {:induction false} AllPending(c: seq<Callback>)
    requires forall k :: 0 <= k < |c| ==> c[k].Pending?
    ensures Outstanding(c) == |c| && ToFire(c) == 0
  {
    if c != [] { AllPending(c[..|c| - 1]); }
  }

  // ---- the invariant

  /** Exactly the callbacks that ran wrote their slots; the count is that of the callbacks still to decrement; and once
      it is zero either one callback is about to set the promise or the promise was set once, to the full slots. */
  ghost predicate Inv<F>(s: State<F>, futures: seq<F>) {
    && Shaped(s, futures)
    && (forall k :: 0 <= k < |futures| ==>
          s.slots[k] == if s.callbacks[k].Pending? then None else Some(futures[k]))
    && s.waitCount == Outstanding(s.callbacks)
    && s.sets + ToFire(s.callbacks) == (if s.waitCount == 0 && futures != [] then 1 else 0)
    && (s.sets == 0 <==> s.result.None?)
    && (s.result.Some? ==> Complete(s.result.value, futures))
  }

  ghost predicate Complete<F>(slots: seq<Option<F>>, futures: seq<F>) {
    |slots| == |futures| && forall k :: 0 <= k < |futures| ==> slots[k] == Some(futures[k])
  }

  lemma StepKeeps<F>(s: State<F>, futures: seq<F>, step: Step)
    requires Inv(s, futures) && Enabled(s, step)
    ensures Inv(Do(s, futures, step), futures)
  {
    match step {
      case Write(k) => CountsAfter(s.callbacks, k, Written);
      case Decrement(k) => CountsAfter(s.callbacks, k, if s.waitCount > 1 then Returned else Last);
      case Fire(k) =>
        CountsAfter(s.callbacks, k, Returned);
        forall j: nat | j < |futures| ensures s.slots[j] == Some(futures[j]) { NoneOutstanding(s.callbacks, j); }
    }
  }

  lemma {:induction false} RunsKeep<F>(s: State<F>, futures: seq<F>, steps: seq<Step>)
    requires Inv(s, futures) && Legal(s, futures, steps)
    ensures Inv(Final(s, futures, steps), futures)
    decreases |steps|
  {
    if steps != [] {
      StepKeeps(s, futures, steps[0]);
      RunsKeep(Do(s, futures, steps[0]), futures, steps[1..]);
    }
  }

  lemma Reached<F>(futures: seq<F>, steps: seq<Step>)
    requires Legal(Initial(futures), futures, steps)
    ensures Inv(Final(Initial(futures), futures, steps), futures)
  {
    AllPending(Initial(futures).callbacks);
    RunsKeep(Initial(futures), futures, steps);
  }

  /** Whatever the interleaving, the promise is set at most once, and then to every future in its slot. */
  lemma SetAtMostOnce<F>(futures: seq<F>, steps: seq<Step>)
    requires Legal(Initial(futures), futures, steps)
    ensures var s := Final(Initial(futures), futures, steps);
      s.sets <= 1 && (s.result.Some? ==> Complete(s.result.value, futures))
  {
    Reached(futures, steps);
  }

  /** It is set by the callback that found the count at one, when every slot holds its future; no slot is written and no
      count decremented afterwards. */
  lemma TheLastOneSets<F>(futures: seq<F>, steps: seq<Step>, step: Step)
    requires Legal(Initial(futures), futures, steps)
    requires Enabled(Final(Initial(futures), futures, steps), step)
    ensures var s := Final(Initial(futures), futures, steps);
      && (step.Fire? ==> Complete(s.slots, futures) && s.sets == 0 && s.waitCount == 0)
      && (!step.Fire? ==> s.sets == 0 && s.waitCount > 0)
      && (step.Decrement? && s.waitCount == 1 ==> Enabled(Do(s, futures, step), Fire(step.k)))
  {
    Reached(futures, steps);
    var s := Final(Initial(futures), futures, steps);
    if s.waitCount == 0 && step.k < |futures| { NoneOutstanding(s.callbacks, step.k); }
    if step.Fire? && s.waitCount == 0 {
      forall j: nat | j < |futures| ensures s.slots[j] == Some(futures[j]) { NoneOutstanding(s.callbacks, j); }
    }
    if ToFire(s.callbacks) == 0 { NoneToFire(s.callbacks, step.k); }
  }

  /** Once every callback has returned, the promise has been set exactly once; and once it is set every callback has. */
  lemma SetExactlyOnce<F>(futures: seq<F>, steps: seq<Step>)
    requires Legal(Initial(futures), futures, steps) && futures != []
    ensures var s := Final(Initial(futures), futures, steps);
      s.sets == 1 <==> forall k :: 0 <= k < |s.callbacks| ==> s.callbacks[k].Returned?
  {
    Reached(futures, steps);
    var s := Final(Initial(futures), futures, steps);
    if forall k :: 0 <= k < |s.callbacks| ==> s.callbacks[k].Returned? { AllReturned(s.callbacks); }
    if s.sets == 1 {
      forall k: nat | k < |s.callbacks| ensures s.callbacks[k].Returned? {
        NoneOutstanding(s.callbacks, k);
        NoneToFire(s.callbacks, k);
      }
    }
  }

  // ---- the callback object, its steps taken without interruption

  class ParallelCallback<F> {
    var futures: seq<Option<F>>
    var waitCount: int
    var promise: Option<seq<Option<F>>>

    /** Just the callbacks of the futures in `done` have run. */
    ghost predicate Holds(all: seq<F>, done: set<nat>)
      reads this
    {
      && |futures| == |all| && (forall k :: k in done ==> k < |all|)
      && waitCount == |all| - |done|
      && (forall k :: 0 <= k < |all| ==> futures[k] == if k in done then Some(all[k]) else None)
      && (promise.Some? <==> |done| == |all| > 0)
      && (promise.Some? ==> Complete(promise.value, all))
    }

    constructor (count: nat, ghost all: seq<F>)
      requires count == |all|
      ensures Holds(all, {})
    {
      futures, waitCount, promise := seq(count, _ => None), count, None;
    }

    /** The callbacks may come in any order. */
    method OnFuture(n: nat, f: F, ghost all: seq<F>, ghost done: set<nat>)
      requires Holds(all, done) && n < |all| && n !in done && f == all[n]
      modifies this
      ensures Holds(all, done + {n})
    {
      futures := futures[n := Some(f)];
      var old' := waitCount;
      waitCount := waitCount - 1;
      NotFull(done, n, |all|);
      if old' > 1 { return; }
      Full(done + {n}, |all|);
      promise := Some(futures);
    }
  }

  lemma {:induction false} AtMost(done: set<nat>, n: nat)
    requires forall k :: k in done ==> k < n
    ensures |done| <= n
  {
    if n > 0 {
      AtMost(done - {n - 1}, n - 1);
      if n - 1 !in done { assert done - {n - 1} == done; }
    }
  }

  lemma NotFull(done: set<nat>, k: nat, n: nat)
    requires (forall j :: j in done ==> j < n) && k < n && k !in done
    ensures |done| < n
  {
    AtMost(done + {k}, n);
  }

  lemma Full(done: set<nat>, n: nat)
    requires (forall k :: k in done ==> k < n) && |done| >= n
    ensures forall k :: 0 <= k < n ==> k in done
  {
    forall k: nat | k < n ensures k in done {
      if k !in done { NotFull(done, k, n); }
    }
  }

  /** WhenAll over futures that are already done: each registration runs its callback on the spot. Nothing to wait for
      sets the promise to the empty vector at once. */
  method WhenAllDone<F>(f: seq<F>) returns (r: Option<seq<Option<F>>>)
    ensures r.Some? && Complete(r.value, f)
  {
    if |f| == 0 { return Some([]); }
    var c := new ParallelCallback<F>(|f|, f);
    ghost var done: set<nat> := {};
    for i := 0 to |f|
      invariant c.Holds(f, done) && |done| == i && forall k :: k in done ==> k < i
    {
      c.OnFuture(i, f[i], f, done);
      done := done + {i};
    }
    r := c.promise;
  }
}
