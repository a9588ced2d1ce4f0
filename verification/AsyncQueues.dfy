/**
 `AsyncQueue` (async-queue.ts): each method takes the step of QueueModel it is
 named after.
 */
module AsyncQueues {
  import opened Wrappers
  import Q = QueueModel
  import QL = QueueLaws

  /**
   `AsyncQueue`. A waiting consumer is the number of its `next()` call and its promise
   an entry of `outcomes`; a waiting producer is the item it holds.
   */
  class AsyncQueue<T, E> {
    const capacity: nat
    var items: seq<T>
    var waitingConsumers: seq<nat>
    var waitingProducers: seq<T>
    var released: seq<T>
    var closed: bool
    var error: Option<E>
    var calls: nat
    var outcomes: map<nat, Q.Outcome<T, E>>
    ghost var accepted: seq<T>

    ghost function State(): Q.Queue<T, E>
      reads this
    {
      Q.Queue(items, waitingConsumers, waitingProducers, released, closed, error, accepted, calls, outcomes)
    }

    ghost predicate Valid()
      reads this
    {
      Q.Inv(State(), capacity)
    }

    constructor (capacity: nat := 64)
      ensures Valid() && this.capacity == capacity && State() == Q.Empty()
    {
      this.capacity := capacity;
      items, waitingConsumers, waitingProducers, released := [], [], [], [];
      closed, error, calls, outcomes, accepted := false, None, 0, map[], [];
    }

    method Accept(item: T)
      modifies `items, `waitingConsumers, `outcomes, `accepted
      ensures State() == Q.Accept(old(State()), item)
    {
      accepted := accepted + [item];
      if waitingConsumers != [] {
        var consumer := waitingConsumers[0];
        waitingConsumers := waitingConsumers[1..];
        outcomes := outcomes[consumer := Q.Item(item)];
      } else {
        items := items + [item];
      }
    }

    /** `push` from its start; `waits` when it suspended. */
    method Push(item: T) returns (waits: bool)
      requires Valid()
      modifies this
      ensures Valid() && State() == Q.Push(old(State()), item, capacity)
      ensures waits <==> waitingProducers != old(waitingProducers)
    {
      Q.PushKeeps(State(), item, capacity);
      waits := PushOrWait(item);
    }

    /** A woken push runs again: it leaves if the queue closed, waits again if it is full. */
    method Resume(k: nat) returns (waits: bool)
      requires Valid() && k < |released|
      modifies this
      ensures Valid() && State() == Q.Resume(old(State()), k, capacity)
    {
      Q.StepKeepsInv(State(), Q.ResumeStep(k), capacity);
      var item := released[k];
      released := released[..k] + released[k + 1..];
      waits := PushOrWait(item);
    }

    method PushOrWait(item: T) returns (waits: bool)
      modifies `items, `waitingConsumers, `waitingProducers, `outcomes, `accepted
      ensures State() == Q.Push(old(State()), item, capacity)
      ensures waits <==> waitingProducers != old(waitingProducers)
    {
      if |items| >= capacity && !closed {
        waitingProducers := waitingProducers + [item];
        return true;
      }
      if !closed {
        Accept(item);
      }
      return false;
    }

    method TryPush(item: T) returns (taken: bool)
      requires Valid()
      modifies this
      ensures Valid() && (State(), taken) == Q.TryPush(old(State()), item, capacity)
    {
      Q.StepKeepsInv(State(), Q.TryPushStep(item), capacity);
      if closed || (waitingConsumers == [] && |items| >= capacity) {
        return false;
      }
      Accept(item);
      return true;
    }

    /** Returns the number of this call; its promise may already be settled. */
    method Next() returns (call: nat)
      requires Valid()
      modifies this
      ensures call == old(calls)
      ensures Valid() && State() == Q.Next(old(State()))
      ensures old(items) != [] ==> call in outcomes && outcomes[call] == Q.Item(old(items)[0])
      ensures old(items) == [] && closed ==>
        call in outcomes && outcomes[call] == if error.Some? then Q.Failed(error.value) else Q.Done
      ensures old(items) == [] && !closed ==> call in waitingConsumers && call !in outcomes
    {
      QL.NextTakesEndsOrWaits(State(), capacity);
      Q.NextKeeps(State(), capacity);
      assert error.Some? ==> closed;
      hide Q.Inv;
      call := calls;
      if items != [] {
        TakeItem();
      } else {
        CallWithoutItem();
      }
    }

    method TakeItem()
      requires items != []
      modifies `items, `waitingProducers, `released, `outcomes, `calls
      ensures State() == Q.Next(old(State()))
    {
      outcomes := outcomes[calls := Q.Item(items[0])];
      items, calls := items[1..], calls + 1;
      ReleaseProducer();
    }

    method CallWithoutItem()
      requires items == [] && (error.Some? ==> closed)
      modifies `waitingConsumers, `outcomes, `calls
      ensures State() == Q.Next(old(State()))
    {
      if error.Some? {
        outcomes := outcomes[calls := Q.Failed(error.value)];
      } else if closed {
        outcomes := outcomes[calls := Q.Done];
      } else {
        waitingConsumers := waitingConsumers + [calls];
      }
      calls := calls + 1;
    }

    method ReleaseProducer()
      modifies `waitingProducers, `released
      ensures State() == Q.ReleaseProducer(old(State()))
    {
      if waitingProducers != [] {
        released := released + [waitingProducers[0]];
        waitingProducers := waitingProducers[1..];
      }
    }

    method Close()
      requires Valid()
      modifies this
      ensures Valid() && State() == Q.Close(old(State()), None)
      ensures !old(closed) ==> forall c <- old(waitingConsumers) :: c in outcomes && outcomes[c] == Q.Done
    {
      forall c ensures !closed && c in waitingConsumers ==>
        c in Q.Close(State(), None).outcomes && Q.Close(State(), None).outcomes[c] == Q.Done
      {
        QL.CloseSettlesAll(State(), None, capacity, c);
      }
      Q.CloseKeeps(State(), None, capacity);
      if !closed {
        closed := true;
        DrainConsumers();
        ReleaseProducers();
      }
    }

    method Fail(reason: E)
      requires Valid()
      modifies this
      ensures Valid() && State() == Q.Close(old(State()), Some(reason))
      ensures !old(closed) ==> forall c <- old(waitingConsumers) :: c in outcomes && outcomes[c] == Q.Failed(reason)
    {
      forall c ensures !closed && c in waitingConsumers ==>
        && c in Q.Close(State(), Some(reason)).outcomes
        && Q.Close(State(), Some(reason)).outcomes[c] == Q.Failed(reason)
      {
        QL.CloseSettlesAll(State(), Some(reason), capacity, c);
      }
      Q.CloseKeeps(State(), Some(reason), capacity);
      if !closed {
        error := Some(reason);
        closed := true;
        DrainConsumers();
        ReleaseProducers();
      }
    }

    method DrainConsumers()
      modifies `waitingConsumers, `outcomes
      ensures waitingConsumers == []
      ensures outcomes == Q.Drain(old(outcomes), old(waitingConsumers), Q.End(old(State())))
    {
      ghost var end := Q.End(State());
      while waitingConsumers != []
        invariant Q.Drain(outcomes, waitingConsumers, end) == Q.Drain(old(outcomes), old(waitingConsumers), end)
        decreases |waitingConsumers|
      {
        var consumer := waitingConsumers[0];
        waitingConsumers := waitingConsumers[1..];
        outcomes := outcomes[consumer := if error.None? then Q.Done else Q.Failed(error.value)];
      }
    }

    method ReleaseProducers()
      modifies `waitingProducers, `released
      ensures waitingProducers == [] && released == old(released) + old(waitingProducers)
    {
      while waitingProducers != []
        invariant released + waitingProducers == old(released) + old(waitingProducers)
        decreases |waitingProducers|
      {
        ReleaseProducer();
      }
    }
  }
}
