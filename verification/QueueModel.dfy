/**
 The bounded queue between a stream's producer and its consumer (async-queue.ts).

 A `next()` call is known by its number, and its promise by an entry in `outcomes`.
 A `push` that finds the buffer full waits; `next` wakes one waiting push, which runs
 again in a later step and checks its condition once more, so `released` holds the
 pushes that have been woken and have not yet run. Steps may be scheduled in any
 order. `accepted` is the history of items the queue took.
 */
module QueueModel {
  import opened Wrappers

  datatype Outcome<T, E> = Item(value: T) | Done | Failed(error: E)

  datatype Queue<T, E> = Queue(
    items: seq<T>,
    consumers: seq<nat>,
    producers: seq<T>,
    released: seq<T>,
    closed: bool,
    error: Option<E>,
    accepted: seq<T>,
    calls: nat,
    outcomes: map<nat, Outcome<T, E>>)

  function Empty<T, E>(): Queue<T, E> {
    Queue([], [], [], [], false, None, [], 0, map[])
  }

  // ----- Steps ---------------------------------------------------------------

  /** Hands an item to the longest-waiting consumer, or buffers it. */
  function Accept<T, E>(q: Queue<T, E>, item: T): Queue<T, E> {
    if q.consumers != []
    then q.(consumers := q.consumers[1..],
            outcomes := q.outcomes[q.consumers[0] := Item(item)],
            accepted := q.accepted + [item])
    else q.(items := q.items + [item], accepted := q.accepted + [item])
  }

  /** `push` from its start, or from where a woken push runs again. */
  function Push<T, E>(q: Queue<T, E>, item: T, capacity: nat): Queue<T, E> {
    if q.closed then q
    else if |q.items| >= capacity then q.(producers := q.producers + [item])
    else Accept(q, item)
  }

  function Resume<T, E>(q: Queue<T, E>, k: nat, capacity: nat): Queue<T, E>
    requires k < |q.released|
  {
    Push(q.(released := q.released[..k] + q.released[k + 1..]), q.released[k], capacity)
  }

  function TryPush<T, E>(q: Queue<T, E>, item: T, capacity: nat): (Queue<T, E>, bool) {
    if q.closed then (q, false)
    else if q.consumers == [] && |q.items| >= capacity then (q, false)
    else (Accept(q, item), true)
  }

  function End<T, E>(q: Queue<T, E>): Outcome<T, E> {
    match q.error
    case Some(e) => Failed(e)
    case None => Done
  }

  function ReleaseProducer<T, E>(q: Queue<T, E>): Queue<T, E> {
    if q.producers == [] then q
    else q.(producers := q.producers[1..], released := q.released + [q.producers[0]])
  }

  function Next<T, E>(q: Queue<T, E>): Queue<T, E> {
    var r := q.(calls := q.calls + 1);
    if q.items != [] then
      ReleaseProducer(r.(items := q.items[1..], outcomes := q.outcomes[q.calls := Item(q.items[0])]))
    else if q.closed then r.(outcomes := q.outcomes[q.calls := End(q)])
    else r.(consumers := q.consumers + [q.calls])
  }

  function Drain<T, E>(
      outcomes: map<nat, Outcome<T, E>>, consumers: seq<nat>, end: Outcome<T, E>): map<nat, Outcome<T, E>>
    decreases |consumers|
  {
    if consumers == [] then outcomes
    else Drain(outcomes[consumers[0] := end], consumers[1..], end)
  }

  /** `close()` with no error, `fail(error)` with one. */
  function Close<T, E>(q: Queue<T, E>, error: Option<E>): Queue<T, E> {
    if q.closed then q
    else
      var r := q.(closed := true, error := error);
      r.(consumers := [], outcomes := Drain(q.outcomes, q.consumers, End(r)),
         producers := [], released := q.released + q.producers)
  }

  datatype Step<T, E> =
    | PushStep(item: T)
    | ResumeStep(k: nat)
    | TryPushStep(item: T)
    | NextStep
    | CloseStep(error: Option<E>)

  /** How many `push` calls have not returned. */
  function Outstanding<T, E>(q: Queue<T, E>): nat {
    |q.producers| + |q.released|
  }

  /** A new push only while fewer than `pushers` pushes have not returned. */
  predicate Enabled<T, E>(q: Queue<T, E>, s: Step<T, E>, pushers: nat) {
    match s
    case PushStep(_) => Outstanding(q) < pushers
    case ResumeStep(k) => k < |q.released|
    case _ => true
  }

  function Take<T, E>(q: Queue<T, E>, s: Step<T, E>, capacity: nat): Queue<T, E>
    requires s.ResumeStep? ==> s.k < |q.released|
  {
    match s
    case PushStep(item) => Push(q, item, capacity)
    case ResumeStep(k) => Resume(q, k, capacity)
    case TryPushStep(item) => TryPush(q, item, capacity).0
    case NextStep => Next(q)
    case CloseStep(error) => Close(q, error)
  }

  // ----- What every step keeps -----------------------------------------------

  /** How many items have been handed to `next()` calls. */
  ghost function Served<T, E>(q: Queue<T, E>): int {
    |q.accepted| - |q.items|
  }

  /** The buffer is what was accepted and not yet handed out, in order and within capacity. */
  ghost predicate BufferOk<T, E>(q: Queue<T, E>, capacity: nat) {
    && |q.items| <= capacity
    && 0 <= Served(q) <= q.calls
    && q.items == q.accepted[Served(q)..]
    && (q.items != [] ==> Served(q) == q.calls)
  }

  /** The waiting consumers are exactly the calls that are not served yet, in call order. */
  ghost predicate WaitersOk<T, E>(q: Queue<T, E>) {
    && (q.closed ==> q.consumers == [] && q.producers == [])
    && (!q.closed ==> q.error.None? && |q.consumers| == q.calls - Served(q))
    && (forall i | 0 <= i < |q.consumers| :: q.consumers[i] == Served(q) + i)
  }

  /** Call number `c` got the item number `c`, or the end if there was no such item. */
  ghost predicate OutcomesOk<T, E>(q: Queue<T, E>)
    requires 0 <= Served(q)
  {
    && (forall c: nat | c < Served(q) && c < q.calls :: c in q.outcomes && q.outcomes[c] == Item(q.accepted[c]))
    && (forall c: nat | Served(q) <= c < q.calls ::
          if q.closed then c in q.outcomes && q.outcomes[c] == End(q) else c !in q.outcomes)
    && (forall c: nat | q.calls <= c :: c !in q.outcomes)
  }

  ghost predicate Inv<T, E>(q: Queue<T, E>, capacity: nat) {
    BufferOk(q, capacity) && WaitersOk(q) && OutcomesOk(q)
  }

  lemma {:induction false} AcceptKeeps<T, E>(q: Queue<T, E>, item: T, capacity: nat)
    requires Inv(q, capacity) && !q.closed && (q.consumers == [] ==> |q.items| < capacity)
    ensures Inv(Accept(q, item), capacity)
  {
  }

  lemma {:induction false} DrainEnds<T, E>(
      outcomes: map<nat, Outcome<T, E>>, consumers: seq<nat>, end: Outcome<T, E>, c: nat)
    ensures c in Drain(outcomes, consumers, end) <==> c in outcomes || c in consumers
    ensures c in consumers ==> Drain(outcomes, consumers, end)[c] == end
    ensures c in outcomes && c !in consumers ==> Drain(outcomes, consumers, end)[c] == outcomes[c]
    decreases |consumers|
  {
    if consumers != [] {
      DrainEnds(outcomes[consumers[0] := end], consumers[1..], end, c);
    }
  }

  lemma {:induction false} CloseKeeps<T, E>(q: Queue<T, E>, error: Option<E>, capacity: nat)
    requires Inv(q, capacity)
    ensures Inv(Close(q, error), capacity)
  {
    var r := Close(q, error);
    if !q.closed {
      forall c: nat
        ensures c in r.outcomes <==> c in q.outcomes || c in q.consumers
        ensures c in q.consumers ==> r.outcomes[c] == End(r)
        ensures c in q.outcomes && c !in q.consumers ==> r.outcomes[c] == q.outcomes[c]
      {
        DrainEnds(q.outcomes, q.consumers, End(r), c);
      }
      forall c: nat | Served(q) <= c < q.calls ensures c in q.consumers {
        assert q.consumers[c - Served(q)] == c;
      }
    }
  }

  lemma {:induction false} NextKeeps<T, E>(q: Queue<T, E>, capacity: nat)
    requires Inv(q, capacity)
    ensures Inv(Next(q), capacity)
  {
    var r := Next(q);
    if q.items != [] {
      assert r.accepted[Served(r)..] == q.accepted[Served(q)..][1..];
      assert q.accepted[Served(q)] == q.items[0];
    }
  }

  lemma {:induction false} StepKeepsInv<T, E>(q: Queue<T, E>, s: Step<T, E>, capacity: nat)
    requires Inv(q, capacity) && (s.ResumeStep? ==> s.k < |q.released|)
    ensures Inv(Take(q, s, capacity), capacity)
  {
    match s
    case PushStep(item) => PushKeeps(q, item, capacity);
    case ResumeStep(k) => PushKeeps(q.(released := q.released[..k] + q.released[k + 1..]), q.released[k], capacity);
    case TryPushStep(item) =>
      if !q.closed && (q.consumers != [] || |q.items| < capacity) {
        AcceptKeeps(q, item, capacity);
      }
    case NextStep => NextKeeps(q, capacity);
    case CloseStep(error) => CloseKeeps(q, error, capacity);
  }

  lemma {:induction false} PushKeeps<T, E>(q: Queue<T, E>, item: T, capacity: nat)
    requires Inv(q, capacity)
    ensures Inv(Push(q, item, capacity), capacity)
  {
  }

  /** Under any schedule; `None` only when a step is not enabled. */
  ghost function Run<T, E>(q: Queue<T, E>, steps: seq<Step<T, E>>, capacity: nat, pushers: nat)
    : (r: Option<Queue<T, E>>)
    requires Inv(q, capacity)
    ensures r.Some? ==> Inv(r.value, capacity)
    decreases |steps|
  {
    if steps == [] then Some(q)
    else if !Enabled(q, steps[0], pushers) then None
    else
      StepKeepsInv(q, steps[0], capacity);
      Run(Take(q, steps[0], capacity), steps[1..], capacity, pushers)
  }

  // ----- What the invariant buys ---------------------------------------------

  /**
   First in, first out, for the n-th `next()` call of any run: if it is settled it
   has the n-th accepted item, or the end when the queue closed before that item.
   */
  lemma {:induction false} NthCallGetsNthItem<T, E>(
      steps: seq<Step<T, E>>, capacity: nat, pushers: nat, c: nat)
    requires Run(Empty(), steps, capacity, pushers).Some?
    ensures var q := Run(Empty(), steps, capacity, pushers).value;
      && (c in q.outcomes ==> c < q.calls)
      && (c in q.outcomes && c < |q.accepted| ==> q.outcomes[c] == Item(q.accepted[c]))
      && (c in q.outcomes && c >= |q.accepted| ==> q.closed && q.outcomes[c] == End(q))
      && (c < q.calls && c !in q.outcomes ==> !q.closed && c >= |q.accepted| && c in q.consumers)
  {
    var q := Run(Empty(), steps, capacity, pushers).value;
    assert Inv(q, capacity);
    if c < q.calls && c !in q.outcomes {
      assert q.consumers[c - Served(q)] == c;
    }
  }

  /** Delivered items followed by buffered ones are the accepted ones; a consumer never waits beside an item. */
  lemma {:induction false} NothingLostOrReordered<T, E>(steps: seq<Step<T, E>>, capacity: nat, pushers: nat)
    requires Run(Empty(), steps, capacity, pushers).Some?
    ensures var q := Run(Empty(), steps, capacity, pushers).value;
      && |q.items| <= capacity && |q.items| <= |q.accepted|
      && q.accepted == q.accepted[..|q.accepted| - |q.items|] + q.items
      && (q.items == [] || q.consumers == [])
      && (q.closed ==> q.consumers == [] && q.producers == [])
  {
  }

  // ----- Wake-ups ------------------------------------------------------------

  /** A push waits beside free room with no wake-up on its way. */
  ghost predicate Starved<T, E>(q: Queue<T, E>, capacity: nat) {
    !q.closed && q.producers != [] && q.released == [] && |q.items| < capacity
  }

  /** While a push waits, the buffer and the pushes about to run would fill it. */
  ghost predicate Enough<T, E>(q: Queue<T, E>, capacity: nat) {
    q.producers == [] || |q.items| + |q.released| >= capacity
  }

  /** A woken push that hands its item straight to a consumer uses up a wake-up and no room. */
  ghost predicate Overtakes<T, E>(q: Queue<T, E>, s: Step<T, E>, capacity: nat) {
    s.ResumeStep? && !q.closed && q.consumers != [] && q.producers != [] && |q.released| == capacity
  }

  /** Exactly one kind of step loses a wake-up. */
  lemma {:induction false} StepKeepsEnoughUnlessItOvertakes<T, E>(q: Queue<T, E>, s: Step<T, E>, capacity: nat)
    requires Inv(q, capacity) && Enough(q, capacity) && capacity >= 1
    requires s.ResumeStep? ==> s.k < |q.released|
    ensures Enough(Take(q, s, capacity), capacity) <==> !Overtakes(q, s, capacity)
  {
  }

  lemma {:induction false} StepKeepsOutstanding<T, E>(q: Queue<T, E>, s: Step<T, E>, capacity: nat, pushers: nat)
    requires Outstanding(q) <= pushers && Enabled(q, s, pushers)
    ensures Outstanding(Take(q, s, capacity)) <= pushers
  {
  }

  /** With no more concurrent pushes than room, no push is ever left waiting beside a free place. */
  lemma {:induction false} FewPushersNeverStarve<T, E>(
      q: Queue<T, E>, steps: seq<Step<T, E>>, capacity: nat, pushers: nat)
    requires 1 <= capacity && pushers <= capacity
    requires Inv(q, capacity) && Enough(q, capacity) && Outstanding(q) <= pushers
    requires Run(q, steps, capacity, pushers).Some?
    ensures Enough(Run(q, steps, capacity, pushers).value, capacity)
    ensures !Starved(Run(q, steps, capacity, pushers).value, capacity)
    decreases |steps|
  {
    if steps != [] {
      StepKeepsInv(q, steps[0], capacity);
      StepKeepsEnoughUnlessItOvertakes(q, steps[0], capacity);
      StepKeepsOutstanding(q, steps[0], capacity, pushers);
      hide Take, Inv;
      FewPushersNeverStarve(Take(q, steps[0], capacity), steps[1..], capacity, pushers);
    }
  }

  ghost predicate Reaches<T(!new), E(!new)>(q: Queue<T, E>, capacity: nat, pushers: nat) {
    exists steps :: Run(Empty(), steps, capacity, pushers) == Some(q)
  }

  lemma {:induction false} RunThen<T, E>(
      q: Queue<T, E>, steps: seq<Step<T, E>>, s: Step<T, E>, capacity: nat, pushers: nat)
    requires Inv(q, capacity) && Run(q, steps, capacity, pushers).Some?
    requires Enabled(Run(q, steps, capacity, pushers).value, s, pushers)
    ensures Run(q, steps + [s], capacity, pushers)
         == Some(Take(Run(q, steps, capacity, pushers).value, s, capacity))
    decreases |steps|
  {
    if steps == [] {
      StepKeepsInv(q, s, capacity);
      assert steps + [s] == [s];
      assert Run(Take(q, s, capacity), [], capacity, pushers) == Some(Take(q, s, capacity));
    } else {
      StepKeepsInv(q, steps[0], capacity);
      assert (steps + [s])[1..] == steps[1..] + [s];
      RunThen(Take(q, steps[0], capacity), steps[1..], s, capacity, pushers);
    }
  }

  lemma {:induction false} ReachesNext<T(!new), E(!new)>(q: Queue<T, E>, s: Step<T, E>, capacity: nat, pushers: nat)
    requires Reaches(q, capacity, pushers) && Enabled(q, s, pushers)
    ensures Reaches(Take(q, s, capacity), capacity, pushers)
  {
    var steps :| Run(Empty(), steps, capacity, pushers) == Some(q);
    RunThen(Empty(), steps, s, capacity, pushers);
  }

  ghost predicate Shape<T, E>(q: Queue<T, E>, items: nat, consumers: nat, producers: nat, released: nat) {
    !q.closed && |q.items| == items && |q.consumers| == consumers && |q.producers| == producers
    && |q.released| == released
  }

  /** A push with no consumer waiting: into the buffer, or into line. */
  lemma {:induction false} PushShapes(q: Queue<nat, nat>, items: nat, waiting: nat, capacity: nat, pushers: nat)
      returns (r: Queue<nat, nat>)
    requires Reaches(q, capacity, pushers) && Shape(q, items, 0, waiting, 0) && waiting < pushers
    requires if items < capacity then waiting == 0 else items == capacity
    ensures Reaches(r, capacity, pushers)
    ensures if items < capacity then Shape(r, items + 1, 0, 0, 0) else Shape(r, items, 0, waiting + 1, 0)
  {
    ReachesNext(q, PushStep(0), capacity, pushers);
    r := Take(q, PushStep(0), capacity);
    hide Reaches;
  }

  /** A consumer takes an item and releases a push, or waits. */
  lemma {:induction false} NextShapes(q: Queue<nat, nat>, items: nat, waiting: nat, released: nat, capacity: nat,
                                      pushers: nat)
      returns (r: Queue<nat, nat>)
    requires Reaches(q, capacity, pushers) && Shape(q, items, 0, waiting, released) && waiting > 0
    ensures Reaches(r, capacity, pushers)
    ensures if items > 0 then Shape(r, items - 1, 0, waiting - 1, released + 1) else Shape(r, 0, 1, waiting, released)
  {
    ReachesNext(q, NextStep, capacity, pushers);
    r := Take(q, NextStep, capacity);
    hide Reaches;
  }

  /** A released push runs: it serves the waiting consumer, or fills a free place. */
  lemma {:induction false} ResumeShapes(q: Queue<nat, nat>, items: nat, consumers: nat, waiting: nat, released: nat,
                                        capacity: nat, pushers: nat)
      returns (r: Queue<nat, nat>)
    requires Reaches(q, capacity, pushers) && Shape(q, items, consumers, waiting, released)
    requires released > 0 && items < capacity && consumers <= 1 && (consumers == 1 ==> items == 0)
    ensures Reaches(r, capacity, pushers)
    ensures if consumers == 1 then Shape(r, 0, 0, waiting, released - 1)
            else Shape(r, items + 1, 0, waiting, released - 1)
  {
    ReachesNext(q, ResumeStep(0), capacity, pushers);
    r := Take(q, ResumeStep(0), capacity);
    hide Reaches;
  }

  lemma {:induction false} FillBuffer(capacity: nat, pushers: nat) returns (q: Queue<nat, nat>)
    requires 1 <= capacity < pushers
    ensures Reaches(q, capacity, pushers) && Shape(q, capacity, 0, 0, 0)
  {
    q := Empty();
    assert Run(q, [], capacity, pushers) == Some(q);
    assert Shape(q, 0, 0, 0, 0);
    hide Reaches, Shape;
    for i := 0 to capacity
      invariant Reaches(q, capacity, pushers) && Shape(q, i, 0, 0, 0)
    {
      q := PushShapes(q, i, 0, capacity, pushers);
    }
  }

  lemma {:induction false} FormLine(before: Queue<nat, nat>, capacity: nat, pushers: nat)
      returns (q: Queue<nat, nat>)
    requires 1 <= capacity < pushers
    requires Reaches(before, capacity, pushers) && Shape(before, capacity, 0, 0, 0)
    ensures Reaches(q, capacity, pushers) && Shape(q, capacity, 0, capacity + 1, 0)
  {
    q := before;
    hide Reaches, Shape;
    for i := 0 to capacity + 1
      invariant Reaches(q, capacity, pushers) && Shape(q, capacity, 0, i, 0)
    {
      q := PushShapes(q, capacity, i, capacity, pushers);
    }
  }

  lemma {:induction false} TakeAll(before: Queue<nat, nat>, capacity: nat, pushers: nat) returns (q: Queue<nat, nat>)
    requires Reaches(before, capacity, pushers) && Shape(before, capacity, 0, capacity + 1, 0)
    ensures Reaches(q, capacity, pushers) && Shape(q, 0, 0, 1, capacity)
  {
    q := before;
    hide Reaches, Shape;
    for i := 0 to capacity
      invariant Reaches(q, capacity, pushers) && Shape(q, capacity - i, 0, capacity + 1 - i, i)
    {
      q := NextShapes(q, capacity - i, capacity + 1 - i, i, capacity, pushers);
    }
  }

  lemma {:induction false} ResumeAll(before: Queue<nat, nat>, capacity: nat, pushers: nat)
      returns (q: Queue<nat, nat>)
    requires 1 <= capacity && Reaches(before, capacity, pushers) && Shape(before, 0, 0, 1, capacity - 1)
    ensures Reaches(q, capacity, pushers) && Shape(q, capacity - 1, 0, 1, 0)
  {
    q := before;
    hide Reaches, Shape;
    for i := 0 to capacity - 1
      invariant Reaches(q, capacity, pushers) && Shape(q, i, 0, 1, capacity - 1 - i)
    {
      q := ResumeShapes(q, i, 0, 1, capacity - 1 - i, capacity, pushers);
    }
  }

  /**
   One push more than there is room for is enough: fill the buffer, let that many
   pushes wait, take every item and ask for one more. The first woken push to run
   serves that consumer directly, and the last waiting push is never woken.
   */
  lemma {:induction false} ManyPushersCanStarve(capacity: nat, pushers: nat) returns (q: Queue<nat, nat>)
    requires 1 <= capacity < pushers
    ensures Reaches(q, capacity, pushers) && Starved(q, capacity)
  {
    q := FillBuffer(capacity, pushers);
    hide Reaches, Shape;
    q := FormLine(q, capacity, pushers);
    q := TakeAll(q, capacity, pushers);
    q := NextShapes(q, 0, 1, capacity, capacity, pushers);
    q := ResumeShapes(q, 0, 1, 1, capacity, capacity, pushers);
    q := ResumeAll(q, capacity, pushers);
    LastPushStarves(q, capacity);
  }

  lemma LastPushStarves(q: Queue<nat, nat>, capacity: nat)
    requires capacity >= 1 && Shape(q, capacity - 1, 0, 1, 0)
    ensures Starved(q, capacity)
  {
  }

  /** Wake-ups are safe exactly when the queue has room for every concurrent push. */
  lemma {:induction false} NoStarvationIffRoomForEveryPusher(capacity: nat, pushers: nat)
    requires capacity >= 1
    ensures (forall q: Queue<nat, nat> :: Reaches(q, capacity, pushers) ==> !Starved(q, capacity))
        <==> pushers <= capacity
  {
    if pushers <= capacity {
      forall q: Queue<nat, nat> | Reaches(q, capacity, pushers) ensures !Starved(q, capacity) {
        var steps: seq<Step<nat, nat>> :| Run(Empty(), steps, capacity, pushers) == Some(q);
        FewPushersNeverStarve(Empty(), steps, capacity, pushers);
      }
    } else {
      var q := ManyPushersCanStarve(capacity, pushers);
    }
  }
}
