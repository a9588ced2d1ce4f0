/** What each call on the bounded queue comes to for its caller, and how a stream's end reaches it (async-queue.ts). */
module QueueLaws {
  import opened Wrappers
  import opened QueueModel

  // ----- One step ---------------------------------------------------------------------------

  /** The item is taken: by the longest-waiting call if there is one, and else into the buffer, last. */
  ghost predicate Taken<T, E>(q: Queue<T, E>, r: Queue<T, E>, item: T) {
    && r.accepted == q.accepted + [item]
    && r.closed == q.closed && r.error == q.error && r.calls == q.calls
    && if q.consumers != [] then
         && r.items == q.items && r.consumers == q.consumers[1..]
         && r.outcomes == q.outcomes[q.consumers[0] := Item(item)]
       else r.items == q.items + [item] && r.consumers == [] && r.outcomes == q.outcomes
  }

  /** A push leaves a closed queue alone, waits its turn when the buffer is full, and else has its item taken. */
  lemma {:induction false} PushTakesOrWaits<T, E>(q: Queue<T, E>, item: T, capacity: nat)
    ensures var r := Take(q, PushStep(item), capacity);
      if q.closed then r == q
      else if |q.items| >= capacity then r == q.(producers := q.producers + [item])
      else Taken(q, r, item) && r.producers == q.producers && r.released == q.released
  {
  }

  /** A push that was woken does as one that starts. */
  lemma {:induction false} ResumeIsPush<T, E>(q: Queue<T, E>, k: nat, capacity: nat)
    requires k < |q.released|
    ensures var woken := q.(released := q.released[..k] + q.released[k + 1..]);
      Take(q, ResumeStep(k), capacity) == Take(woken, PushStep(q.released[k]), capacity)
  {
  }

  /** `tryPush` takes the item exactly when the queue is open and a call waits or there is room. */
  lemma {:induction false} TryPushTakesIff<T, E>(q: Queue<T, E>, item: T, capacity: nat)
    ensures var (r, taken) := TryPush(q, item, capacity);
      && (taken <==> !q.closed && (q.consumers != [] || |q.items| < capacity))
      && if taken then Taken(q, r, item) && r.producers == q.producers && r.released == q.released else r == q
  {
  }

  /** `next()` gets the first buffered item and wakes the first waiting push; or the end, or the error; or waits. */
  lemma {:induction false} NextTakesEndsOrWaits<T, E>(q: Queue<T, E>, capacity: nat)
    requires Inv(q, capacity)
    ensures var r, c := Take(q, NextStep, capacity), q.calls;
      && r.calls == c + 1 && r.accepted == q.accepted && r.closed == q.closed && r.error == q.error
      && (q.items != [] ==>
           && r.items == q.items[1..] && c in r.outcomes && r.outcomes[c] == Item(q.items[0])
           && r.producers == (if q.producers == [] then [] else q.producers[1..])
           && r.released == q.released + if q.producers == [] then [] else [q.producers[0]])
      && (q.items == [] && q.closed ==>
           && c in r.outcomes
           && (q.error.None? ==> r.outcomes[c] == Done)
           && (q.error.Some? ==> r.outcomes[c] == Failed(q.error.value)))
      && (q.items == [] && !q.closed ==> c !in r.outcomes && r.consumers == q.consumers + [c])
  {
  }

  /** Closing an open queue settles every waiting call, wakes every waiting push and keeps the buffer. */
  lemma {:induction false} CloseSettlesAll<T, E>(q: Queue<T, E>, error: Option<E>, capacity: nat, c: nat)
    ensures var r := Take(q, CloseStep(error), capacity);
      if q.closed then r == q
      else
        && r.closed && r.error == error && r.items == q.items && r.accepted == q.accepted && r.calls == q.calls
        && r.consumers == [] && r.producers == [] && r.released == q.released + q.producers
        && (c in q.consumers ==>
             && c in r.outcomes
             && (error.None? ==> r.outcomes[c] == Done)
             && (error.Some? ==> r.outcomes[c] == Failed(error.value)))
        && (c !in q.consumers ==> (c in r.outcomes <==> c in q.outcomes))
        && (c !in q.consumers && c in q.outcomes ==> r.outcomes[c] == q.outcomes[c])
  {
    DrainEnds(q.outcomes, q.consumers, End(q.(closed := true, error := error)), c);
  }

  // ----- Whole runs -------------------------------------------------------------------------

  /** What the first `close` or `fail` of a run carries. */
  function FirstClose<T, E>(steps: seq<Step<T, E>>): Option<Option<E>> {
    if steps == [] then None
    else if steps[0].CloseStep? then Some(steps[0].error)
    else FirstClose(steps[1..])
  }

  lemma {:induction false} ClosedByTheFirst<T, E>(q: Queue<T, E>, steps: seq<Step<T, E>>, capacity: nat, pushers: nat)
    requires Inv(q, capacity) && Run(q, steps, capacity, pushers).Some?
    ensures var r := Run(q, steps, capacity, pushers).value;
      if q.closed then r.closed && r.error == q.error
      else
        && (r.closed <==> FirstClose(steps).Some?)
        && (r.closed ==> r.error == FirstClose(steps).value)
    decreases |steps|
  {
    if steps != [] {
      StepKeepsInv(q, steps[0], capacity);
      StepCloses(q, steps[0], capacity);
      hide Take, Inv;
      ClosedByTheFirst(Take(q, steps[0], capacity), steps[1..], capacity, pushers);
    }
  }

  lemma StepCloses<T, E>(q: Queue<T, E>, s: Step<T, E>, capacity: nat)
    requires s.ResumeStep? ==> s.k < |q.released|
    ensures var r := Take(q, s, capacity);
      if q.closed then r.closed && r.error == q.error
      else (r.closed <==> s.CloseStep?) && (s.CloseStep? ==> r.error == s.error)
  {
  }

  /**
   The end of a stream reaches every call past its last item: the error of the first `fail`,
   or the plain end when the queue was closed first; with neither, such a call waits.
   */
  lemma {:induction false} TheEndReachesEveryCall<T, E>(steps: seq<Step<T, E>>, capacity: nat, pushers: nat, c: nat)
    requires Run(Empty(), steps, capacity, pushers).Some?
    ensures var q := Run(Empty(), steps, capacity, pushers).value;
      c < q.calls && c >= |q.accepted| ==>
        match FirstClose(steps)
        case None => c !in q.outcomes && c in q.consumers
        case Some(None) => c in q.outcomes && q.outcomes[c] == Done
        case Some(Some(e)) => c in q.outcomes && q.outcomes[c] == Failed(e)
  {
    ClosedByTheFirst(Empty<T, E>(), steps, capacity, pushers);
    NthCallGetsNthItem(steps, capacity, pushers, c);
    hide Run, FirstClose;
  }
}
