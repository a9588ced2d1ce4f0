/**
 Mapping with bounded concurrency (map-concurrency.ts). A worker claims an index and
 calls the mapper in one step, and stores the value when the call settles in another;
 the steps of different workers interleave in any order. `outcomes[i]` is what the
 mapper's call for item `i` will come to, fixed but arbitrary.
 */
module WorkerPool {
  import opened Wrappers

  datatype Outcome<R> = Value(value: R) | Rejected(error: nat)

  datatype Worker = Idle | Mapping(index: nat) | Finished | Threw(index: nat)

  /** A call of the mapper: for which item, by which worker. */
  datatype Call = Call(index: nat, worker: nat)

  datatype Pool<R> = Pool(nextIndex: nat, workers: seq<Worker>, results: seq<Option<R>>, calls: seq<Call>)

  datatype Step = Claim(worker: nat) | Settle(worker: nat)

  function Limit(concurrency: Option<real>, count: nat): (limit: nat)
    requires count > 0
    ensures 1 <= limit <= count
    ensures concurrency.Some? && concurrency.value >= 1.0 ==>
      limit as real <= concurrency.value && (limit == count || limit as real > concurrency.value - 1.0)
    ensures concurrency.None? || concurrency.value < 1.0 ==> limit == 1
  {
    var raw := if concurrency.Some? then concurrency.value.Floor else 1;
    var least := if raw < count then raw else count;
    if least < 1 then 1 else least
  }

  function Start<R>(limit: nat, count: nat): Pool<R> {
    Pool(0, seq(limit, _ => Idle), seq(count, _ => None), [])
  }

  function ClaimStep<R>(p: Pool<R>, w: nat): Pool<R> {
    if w >= |p.workers| || p.workers[w] != Idle then p
    else if p.nextIndex >= |p.results| then
      p.(nextIndex := p.nextIndex + 1, workers := p.workers[w := Finished])
    else
      p.(nextIndex := p.nextIndex + 1, workers := p.workers[w := Mapping(p.nextIndex)],
         calls := p.calls + [Call(p.nextIndex, w)])
  }

  function SettleStep<R>(p: Pool<R>, w: nat, outcomes: seq<Outcome<R>>): Pool<R>
    requires |outcomes| == |p.results|
  {
    if w >= |p.workers| || !p.workers[w].Mapping? || p.workers[w].index >= |outcomes| then p
    else
      var i := p.workers[w].index;
      match outcomes[i]
      case Value(v) => p.(workers := p.workers[w := Idle], results := p.results[i := Some(v)])
      case Rejected(_) => p.(workers := p.workers[w := Threw(i)])
  }

  function Next<R>(p: Pool<R>, step: Step, outcomes: seq<Outcome<R>>): (q: Pool<R>)
    requires |outcomes| == |p.results|
    ensures |q.results| == |p.results| && |q.workers| == |p.workers|
  {
    match step
    case Claim(w) => ClaimStep(p, w)
    case Settle(w) => SettleStep(p, w, outcomes)
  }

  // ----- What every interleaving keeps ----------------------------------------------

  /** The k-th call of the mapper is for item k: every item is claimed once, in order. */
  ghost predicate CallsInOrder<R>(p: Pool<R>) {
    && |p.calls| == (if p.nextIndex < |p.results| then p.nextIndex else |p.results|)
    && forall k | 0 <= k < |p.calls| :: p.calls[k].index == k && p.calls[k].worker < |p.workers|
  }

  /** A call is with the worker that made it until its value is stored. */
  ghost predicate CallsAccounted<R>(p: Pool<R>, outcomes: seq<Outcome<R>>)
    requires |outcomes| == |p.results| && CallsInOrder(p)
  {
    && (forall k | 0 <= k < |p.calls| :: CallState(p, k, outcomes))
    && (forall k | |p.calls| <= k < |p.results| :: p.results[k] == None)
  }

  ghost predicate CallState<R>(p: Pool<R>, k: nat, outcomes: seq<Outcome<R>>)
    requires |outcomes| == |p.results| && CallsInOrder(p) && k < |p.calls|
  {
    var worker := p.workers[p.calls[k].worker];
    if p.results[k].Some? then outcomes[k] == Value(p.results[k].value) && worker != Mapping(k) && worker != Threw(k)
    else worker == Mapping(k) || (worker == Threw(k) && outcomes[k].Rejected?)
  }

  /** A worker holds only calls of its own, and stops only when no items are left. */
  ghost predicate WorkerState<R>(p: Pool<R>, w: nat)
    requires w < |p.workers|
  {
    match p.workers[w]
    case Mapping(i) => i < |p.calls| && p.calls[i].worker == w
    case Threw(i) => i < |p.calls| && p.calls[i].worker == w
    case Finished => p.nextIndex >= |p.results|
    case Idle => true
  }

  ghost predicate Inv<R>(p: Pool<R>, outcomes: seq<Outcome<R>>) {
    && |outcomes| == |p.results|
    && CallsInOrder(p)
    && CallsAccounted(p, outcomes)
    && forall w | 0 <= w < |p.workers| :: WorkerState(p, w)
  }

  lemma {:induction false} ClaimKeepsInv<R>(p: Pool<R>, w: nat, outcomes: seq<Outcome<R>>)
    requires Inv(p, outcomes)
    ensures Inv(ClaimStep(p, w), outcomes)
  {
    var q := ClaimStep(p, w);
    forall k | 0 <= k < |q.calls| ensures CallState(q, k, outcomes) {
      if k < |p.calls| {
        assert CallState(p, k, outcomes);
      }
    }
    forall v | 0 <= v < |q.workers| ensures WorkerState(q, v) {
      assert WorkerState(p, v);
    }
  }

  lemma {:induction false} SettleKeepsInv<R>(p: Pool<R>, w: nat, outcomes: seq<Outcome<R>>)
    requires Inv(p, outcomes)
    ensures Inv(SettleStep(p, w, outcomes), outcomes)
  {
    var q := SettleStep(p, w, outcomes);
    if q != p {
      assert WorkerState(p, w);
      assert CallState(p, p.workers[w].index, outcomes);
    }
    forall k | 0 <= k < |q.calls| ensures CallState(q, k, outcomes) {
      assert CallState(p, k, outcomes);
    }
    forall v | 0 <= v < |q.workers| ensures WorkerState(q, v) {
      assert WorkerState(p, v);
    }
  }

  function Run<R>(p: Pool<R>, steps: seq<Step>, outcomes: seq<Outcome<R>>): (q: Pool<R>)
    requires |outcomes| == |p.results|
    ensures |q.results| == |p.results| && |q.workers| == |p.workers|
  {
    if steps == [] then p else Next(Run(p, steps[..|steps| - 1], outcomes), steps[|steps| - 1], outcomes)
  }

  lemma {:induction false} RunKeepsInv<R>(limit: nat, steps: seq<Step>, outcomes: seq<Outcome<R>>)
    ensures Inv(Run(Start(limit, |outcomes|), steps, outcomes), outcomes)
  {
    if steps != [] {
      RunKeepsInv(limit, steps[..|steps| - 1], outcomes);
      var p := Run(Start(limit, |outcomes|), steps[..|steps| - 1], outcomes);
      match steps[|steps| - 1] {
        case Claim(w) => ClaimKeepsInv(p, w, outcomes);
        case Settle(w) => SettleKeepsInv(p, w, outcomes);
      }
    }
  }

  // ----- What a whole run comes to ---------------------------------------------------

  ghost predicate Stopped<R>(p: Pool<R>) {
    forall w <- p.workers :: w.Finished? || w.Threw?
  }

  ghost predicate SomeThrew<R>(p: Pool<R>) {
    exists w <- p.workers :: w.Threw?
  }

  /**
   When every worker has stopped, either the results are exactly the mapper's values in
   input order or a worker threw, and it threw because some call was rejected.
   */
  lemma {:induction false} StoppedRunIsComplete<R>(limit: nat, steps: seq<Step>, outcomes: seq<Outcome<R>>)
    requires limit > 0
    requires Stopped(Run(Start(limit, |outcomes|), steps, outcomes))
    ensures var p := Run(Start(limit, |outcomes|), steps, outcomes);
      && (!SomeThrew(p) <==> forall o <- outcomes :: o.Value?)
      && (!SomeThrew(p) ==> forall i | 0 <= i < |outcomes| :: Some(outcomes[i]) == AsOutcome(p.results[i]))
  {
    RunKeepsInv(limit, steps, outcomes);
    var p := Run(Start(limit, |outcomes|), steps, outcomes);
    hide Run, Start;
    if SomeThrew(p) {
      var w :| w in p.workers && w.Threw?;
      var v :| 0 <= v < |p.workers| && p.workers[v] == w;
      assert WorkerState(p, v) && CallState(p, w.index, outcomes);
      assert outcomes[w.index] in outcomes;
    } else {
      NobodyThrew(p, outcomes);
      forall o <- outcomes ensures o.Value? {
        var i :| 0 <= i < |outcomes| && outcomes[i] == o;
      }
    }
  }

  function AsOutcome<R>(r: Option<R>): Option<Outcome<R>> {
    if r.Some? then Some(Value(r.value)) else None
  }

  lemma {:induction false} NobodyThrew<R>(p: Pool<R>, outcomes: seq<Outcome<R>>)
    requires Inv(p, outcomes) && Stopped(p) && !SomeThrew(p) && |p.workers| > 0
    ensures forall i | 0 <= i < |outcomes| :: Some(outcomes[i]) == AsOutcome(p.results[i])
  {
    assert p.workers[0] in p.workers && WorkerState(p, 0);
    forall i | 0 <= i < |outcomes| ensures Some(outcomes[i]) == AsOutcome(p.results[i]) {
      assert CallState(p, i, outcomes);
      assert p.workers[p.calls[i].worker] in p.workers;
    }
  }

  /** Mapper calls that have not settled. */
  ghost function InFlight(workers: seq<Worker>): nat {
    if workers == [] then 0 else (if workers[0].Mapping? then 1 else 0) + InFlight(workers[1..])
  }

  lemma {:induction false} InFlightAtMost(workers: seq<Worker>)
    ensures InFlight(workers) <= |workers|
  {
    if workers != [] {
      InFlightAtMost(workers[1..]);
    }
  }

  /** Whatever the interleaving, few calls are in flight; a concurrency of `None` is one that is not finite. */
  lemma {:induction false} BoundedConcurrency<R>(concurrency: Option<real>, steps: seq<Step>, outcomes: seq<Outcome<R>>)
    requires outcomes != []
    ensures var p := Run(Start(Limit(concurrency, |outcomes|), |outcomes|), steps, outcomes);
      && InFlight(p.workers) <= Limit(concurrency, |outcomes|)
      && (concurrency.Some? && concurrency.value >= 1.0 ==> InFlight(p.workers) as real <= concurrency.value)
      && (concurrency.None? || concurrency.value < 1.0 ==> InFlight(p.workers) <= 1)
  {
    var limit := Limit(concurrency, |outcomes|);
    InFlightAtMost(Run(Start(limit, |outcomes|), steps, outcomes).workers);
  }

  /** The workers each claim an item in turn. */
  function Claims(n: nat): seq<Step> { seq(n, i requires 0 <= i < n => Claim(i)) }

  lemma {:induction false} ClaimsRun<R>(limit: nat, n: nat, outcomes: seq<Outcome<R>>)
    requires n <= limit <= |outcomes|
    ensures var p := Run(Start(limit, |outcomes|), Claims(n), outcomes);
      && p.nextIndex == n && |p.workers| == limit
      && (forall w | 0 <= w < n :: p.workers[w] == Mapping(w))
      && (forall w | n <= w < limit :: p.workers[w] == Idle)
  {
    if n > 0 {
      ClaimsRun(limit, n - 1, outcomes);
      assert Claims(n)[..n - 1] == Claims(n - 1);
    } else {
      assert Claims(0) == [];
    }
  }

  lemma {:induction false} AllMapping(workers: seq<Worker>)
    requires forall w <- workers :: w.Mapping?
    ensures InFlight(workers) == |workers|
  {
    if workers != [] {
      AllMapping(workers[1..]);
    }
  }

  /** The bound is reached: as many calls as the number given allows do get in flight at once. */
  lemma {:induction false} FullConcurrency<R>(concurrency: Option<real>, outcomes: seq<Outcome<R>>)
    requires outcomes != []
    ensures var limit := Limit(concurrency, |outcomes|);
      var inFlight := InFlight(Run(Start(limit, |outcomes|), Claims(limit), outcomes).workers);
      && inFlight == limit
      && (concurrency.Some? && concurrency.value >= 1.0 ==>
           inFlight == |outcomes| || inFlight as real > concurrency.value - 1.0)
  {
    var limit := Limit(concurrency, |outcomes|);
    ClaimsRun(limit, limit, outcomes);
    AllMapping(Run(Start(limit, |outcomes|), Claims(limit), outcomes).workers);
  }
}
