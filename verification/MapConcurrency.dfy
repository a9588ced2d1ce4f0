/** `mapWithConcurrency`, run under an arbitrary scheduler of its workers. */
module MapConcurrency {
  import opened Wrappers
  import P = WorkerPool

  datatype Settled<R> = Resolved(values: seq<R>) | RejectedWith(error: nat)

  predicate Active(w: P.Worker) {
    w.Idle? || w.Mapping?
  }

  function StepOf(workers: seq<P.Worker>, w: nat): P.Step
    requires w < |workers|
  {
    if workers[w].Idle? then P.Step.Claim(w) else P.Step.Settle(w)
  }

  class Mapping<R> {
    var nextIndex: nat
    var workers: seq<P.Worker>
    const results: array<Option<R>>
    ghost var calls: seq<P.Call>

    ghost function State(): P.Pool<R>
      reads this, results
    {
      P.Pool(nextIndex, workers, results[..], calls)
    }

    constructor (limit: nat, count: nat)
      ensures fresh(results) && State() == P.Start(limit, count)
    {
      results := new Option<R>[count](_ => None);
      workers := seq(limit, _ => P.Idle);
      nextIndex, calls := 0, [];
      new;
      assert results[..] == seq(count, _ => None);
    }

    /** A worker takes the next index, and calls the mapper unless none is left. */
    method Claim(w: nat)
      requires w < |workers| && workers[w] == P.Idle
      modifies this
      ensures State() == P.ClaimStep(old(State()), w)
    {
      var index := nextIndex;
      nextIndex := nextIndex + 1;
      if index >= results.Length {
        workers := workers[w := P.Finished];
        return;
      }
      workers := workers[w := P.Mapping(index)];
      calls := calls + [P.Call(index, w)];
    }

    /** The call of a worker comes to its outcome. */
    method Settle(w: nat, outcomes: seq<P.Outcome<R>>) returns (error: Option<nat>)
      requires |outcomes| == results.Length
      requires w < |workers| && workers[w].Mapping? && workers[w].index < |outcomes|
      modifies this, results
      ensures State() == P.SettleStep(old(State()), w, outcomes)
      ensures w < |workers| && (error.Some? <==> workers[w].Threw?)
      ensures error.Some? ==> outcomes[old(workers[w].index)] == P.Rejected(error.value)
    {
      var index := workers[w].index;
      match outcomes[index] {
        case Value(v) =>
          results[index] := Some(v);
          workers := workers[w := P.Idle];
          return None;
        case Rejected(e) =>
          workers := workers[w := P.Threw(index)];
          return Some(e);
      }
    }

    /** Whatever a worker can do next. */
    method Step(w: nat, outcomes: seq<P.Outcome<R>>) returns (error: Option<nat>)
      requires P.Inv(State(), outcomes) && w < |workers| && Active(workers[w])
      modifies this, results
      ensures State() == P.Next(old(State()), StepOf(old(workers), w), outcomes)
      ensures error.Some? <==> workers[w].Threw?
      ensures error.Some? ==>
        && old(workers[w]).Mapping? && old(workers[w]).index < |outcomes|
        && outcomes[old(workers[w]).index] == P.Rejected(error.value)
    {
      assert P.WorkerState(State(), w);
      hide P.Inv, P.WorkerState;
      if workers[w].Idle? {
        Claim(w);
        return None;
      }
      error := Settle(w, outcomes);
    }
  }

  /** The scheduler's choice if that worker can go on, else the first that can. */
  method Pick(workers: seq<P.Worker>, choice: nat) returns (w: Option<nat>)
    ensures w.Some? ==> w.value < |workers| && Active(workers[w.value])
    ensures w.None? ==> forall v <- workers :: !Active(v)
  {
    if choice < |workers| && Active(workers[choice]) {
      return Some(choice);
    }
    var v := 0;
    while v < |workers|
      invariant 0 <= v <= |workers|
      invariant forall u | 0 <= u < v :: !Active(workers[u])
    {
      if Active(workers[v]) {
        return Some(v);
      }
      v := v + 1;
    }
    return None;
  }

  function Weight(w: P.Worker): nat {
    if w.Idle? then 1 else if w.Mapping? then 2 else 0
  }

  function Weights(workers: seq<P.Worker>): nat {
    if workers == [] then 0 else Weight(workers[0]) + Weights(workers[1..])
  }

  lemma {:induction false} WeightsUpdate(workers: seq<P.Worker>, w: nat, v: P.Worker)
    requires w < |workers|
    ensures Weights(workers[w := v]) == Weights(workers) - Weight(workers[w]) + Weight(v)
  {
    if w > 0 {
      WeightsUpdate(workers[1..], w - 1, v);
      assert workers[w := v][1..] == workers[1..][w - 1 := v];
    } else {
      assert workers[0 := v][1..] == workers[1..];
    }
  }

  /** Steps left: no schedule goes on forever. */
  ghost function StepsLeft<R>(p: P.Pool<R>): int {
    2 * (|p.results| - |p.calls|) + Weights(p.workers)
  }

  /** Every step that a worker can take brings the end nearer. */
  lemma {:induction false} StepsRunOut<R>(p: P.Pool<R>, w: nat, outcomes: seq<P.Outcome<R>>)
    requires P.Inv(p, outcomes) && w < |p.workers| && Active(p.workers[w])
    ensures var q := P.Next(p, StepOf(p.workers, w), outcomes);
      0 <= StepsLeft(q) < StepsLeft(p)
  {
    var q := P.Next(p, StepOf(p.workers, w), outcomes);
    assert P.WorkerState(p, w);
    WeightsUpdate(p.workers, w, q.workers[w]);
  }

  ghost predicate AllValues<R>(outcomes: seq<P.Outcome<R>>) {
    forall o <- outcomes :: o.Value?
  }

  ghost function ValuesOf<R>(outcomes: seq<P.Outcome<R>>): seq<R>
    requires AllValues(outcomes)
  {
    seq(|outcomes|, i requires 0 <= i < |outcomes| => outcomes[i].value)
  }

  /** Only the worker that steps can be the first to throw. */
  lemma {:induction false} WhoThrew<R>(p: P.Pool<R>, w: nat, outcomes: seq<P.Outcome<R>>)
    requires |outcomes| == |p.results| && w < |p.workers| && Active(p.workers[w]) && !P.SomeThrew(p)
    ensures var q := P.Next(p, StepOf(p.workers, w), outcomes);
      P.SomeThrew(q) <==> q.workers[w].Threw?
  {
    var q := P.Next(p, StepOf(p.workers, w), outcomes);
    assert forall v | 0 <= v < |p.workers| && v != w :: q.workers[v] == p.workers[v];
  }

  /** A run in which no call has been rejected so far. */
  ghost predicate SoFar<R>(p: P.Pool<R>, limit: nat, steps: seq<P.Step>, outcomes: seq<P.Outcome<R>>) {
    p == P.Run(P.Start(limit, |outcomes|), steps, outcomes) && !P.SomeThrew(p)
  }

  /** The last step of this run settles the first call that is rejected, with this error. */
  ghost predicate FirstRejection<R>(limit: nat, steps: seq<P.Step>, outcomes: seq<P.Outcome<R>>, error: nat) {
    && steps != []
    && (var before := P.Run(P.Start(limit, |outcomes|), steps[..|steps| - 1], outcomes);
        && !P.SomeThrew(before)
        && steps[|steps| - 1].Settle?
        && (var w := steps[|steps| - 1].worker;
            && w < |before.workers| && before.workers[w].Mapping? && before.workers[w].index < |outcomes|
            && outcomes[before.workers[w].index] == P.Rejected(error)))
  }

  lemma {:induction false} SoFarAfter<R>(
      p: P.Pool<R>, limit: nat, steps: seq<P.Step>, outcomes: seq<P.Outcome<R>>, w: nat, thrown: Option<nat>)
    requires SoFar(p, limit, steps, outcomes)
    requires |outcomes| == |p.results| && w < |p.workers| && Active(p.workers[w])
    requires thrown.Some? <==> P.Next(p, StepOf(p.workers, w), outcomes).workers[w].Threw?
    requires thrown.Some? ==>
      p.workers[w].Mapping? && p.workers[w].index < |outcomes| &&
      outcomes[p.workers[w].index] == P.Rejected(thrown.value)
    ensures var more := steps + [StepOf(p.workers, w)];
      if thrown.Some? then FirstRejection(limit, more, outcomes, thrown.value)
      else SoFar(P.Next(p, StepOf(p.workers, w), outcomes), limit, more, outcomes)
  {
    WhoThrew(p, w, outcomes);
    assert (steps + [StepOf(p.workers, w)])[..|steps|] == steps;
    hide P.Next, P.SomeThrew, P.Start;
  }

  /** The results of a run that has stopped without a rejection. */
  method Collect<R>(run: Mapping<R>, ghost limit: nat, ghost steps: seq<P.Step>, ghost outcomes: seq<P.Outcome<R>>)
    returns (values: seq<R>)
    requires SoFar(run.State(), limit, steps, outcomes) && limit > 0
    requires P.Stopped(run.State())
    ensures AllValues(outcomes) && values == ValuesOf(outcomes)
  {
    P.StoppedRunIsComplete(limit, steps, outcomes);
    hide P.Run, P.Stopped;
    var stored := run.results[..];
    forall i | 0 <= i < |stored| ensures stored[i].Some? && P.Value(stored[i].value) == outcomes[i] {
      assert Some(outcomes[i]) == P.AsOutcome(stored[i]);
    }
    return seq(|stored|, i requires 0 <= i < |stored| => stored[i].value);
  }

  /**
   Resolves to the mapper's values in input order just when no call is rejected, whatever
   the schedule, and else rejects as soon as a call does, with the error of that call.
   */
  method MapWithConcurrency<R>(outcomes: seq<P.Outcome<R>>, concurrency: Option<real>, schedule: nat -> nat)
    returns (r: Settled<R>, ghost steps: seq<P.Step>)
    ensures r.Resolved? <==> AllValues(outcomes)
    ensures r.Resolved? ==> r.values == ValuesOf(outcomes)
    ensures r.RejectedWith? ==>
      outcomes != [] && FirstRejection(P.Limit(concurrency, |outcomes|), steps, outcomes, r.error)
  {
    steps := [];
    if |outcomes| == 0 {
      return Resolved([]), steps;
    }
    var limit := P.Limit(concurrency, |outcomes|);
    var run := new Mapping<R>(limit, |outcomes|);
    var tick := 0;
    assert !P.SomeThrew(run.State());
    hide P.Start, P.Next, P.SomeThrew;
    var w: Option<nat> := Pick(run.workers, schedule(tick));
    while w.Some?
      invariant fresh(run) && fresh(run.results)
      invariant SoFar(run.State(), limit, steps, outcomes)
      invariant w.Some? ==> w.value < |run.workers| && Active(run.workers[w.value])
      invariant w.None? ==> P.Stopped(run.State())
      decreases StepsLeft(run.State())
    {
      ghost var before := run.State();
      P.RunKeepsInv(limit, steps, outcomes);
      StepsRunOut(before, w.value, outcomes);
      var thrown := run.Step(w.value, outcomes);
      SoFarAfter(before, limit, steps, outcomes, w.value, thrown);
      steps := steps + [StepOf(before.workers, w.value)];
      if thrown.Some? {
        RejectionShows(limit, steps, outcomes, thrown.value);
        return RejectedWith(thrown.value), steps;
      }
      tick := tick + 1;
      w := Pick(run.workers, schedule(tick));
    }
    var values := Collect(run, limit, steps, outcomes);
    return Resolved(values), steps;
  }

  lemma RejectionShows<R>(limit: nat, steps: seq<P.Step>, outcomes: seq<P.Outcome<R>>, error: nat)
    requires FirstRejection(limit, steps, outcomes, error)
    ensures !AllValues(outcomes)
  {
    var w := steps[|steps| - 1].worker;
    var index := P.Run(P.Start(limit, |outcomes|), steps[..|steps| - 1], outcomes).workers[w].index;
    assert outcomes[index] in outcomes;
  }
}
