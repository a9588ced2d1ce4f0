/** Which failures of a file call are retried, and where, and what becomes of its lease (file-adapter.ts). */
module FileLaws {
  import opened Wrappers
  import opened HintedRetry
  import opened FileRetry

  // ----- Retries within an attempt ------------------------------------------------------------

  /** A failure that asks for another call, and within ten seconds. */
  predicate AsksAgain(retryable: Retryable, answer: Answer) {
    && answer.Fail?
    && answer.error.retryDelayMs.Some? && 0.0 <= answer.error.retryDelayMs.value <= 10_000.0
    && match retryable
       case OnUnavailable => answer.error.code == Unavailable
       case OnOverloaded => answer.error.code == ResourceExhausted && answer.error.reason == RunnerOverloaded
  }

  lemma {:induction false} AsksAgainIff(retryable: Retryable, e: RpcError)
    ensures AsksAgain(retryable, Fail(e)) <==>
            HintOf(e, retryable).Some? && HintOf(e, retryable).value <= HINTED_RETRY_MAX_DELAY_MS
    ensures HintOf(e, retryable).Some? ==> HintOf(e, retryable) == e.retryDelayMs
  {
  }

  /** The next call, no sooner than asked for, with what is left of the caller's time: at least five seconds. */
  ghost predicate CalledAgain(before: CallTry, next: CallTry, retryable: Retryable, start: real,
                              timeoutMs: Option<real>)
  {
    && AsksAgain(retryable, before.answer)
    && next.start >= before.end + before.answer.error.retryDelayMs.value
    && match timeoutMs
       case None => next.timeoutMs.None?
       case Some(ms) => next.timeoutMs == Some(start + ms - next.start) && next.timeoutMs.value >= 5_000.0
  }

  /**
   Only failures that ask for it are retried. One that asks for it ends the burst only when
   the calls have run out, the caller's time does not hold the pause and five seconds more,
   or the signal fires.
   */
  lemma {:induction false} HintedFailuresAreRetried(
      tries: seq<CallTry>, timeoutMs: Option<real>, maxAttempts: nat, retryable: Retryable, start: real, r: Answer,
      now: real, abortAt: Option<real>)
    requires Burst(tries, timeoutMs, maxAttempts, retryable, start, r, now, abortAt)
    ensures tries != [] && tries[0].start == start && tries[0].timeoutMs == timeoutMs
    ensures forall i | 0 <= i < |tries| - 1 :: CalledAgain(tries[i], tries[i + 1], retryable, start, timeoutMs)
    ensures var last := tries[|tries| - 1].answer;
      && (AsksAgain(retryable, last) ==>
           || |tries| >= maxAttempts
           || (r == Fail(CANCELLED) && abortAt.Some? && abortAt.value <= now)
           || (timeoutMs.Some? && start + timeoutMs.value < now + 1.2 * last.error.retryDelayMs.value + 5_000.0))
      && (!AsksAgain(retryable, last) ==> r == last)
  {
    forall i | 0 <= i < |tries| - 1 ensures CalledAgain(tries[i], tries[i + 1], retryable, start, timeoutMs) {
      var j := i + 1;
      assert MayFollow(tries[j - 1], tries[j].start, tries[j].timeoutMs, retryable, DeadlineOf(start, timeoutMs));
      AsksAgainIff(retryable, tries[i].answer.error);
      hide AsksAgain, HintOf;
    }
    var last := tries[|tries| - 1].answer;
    if last.Fail? {
      AsksAgainIff(retryable, last.error);
    }
    hide AsksAgain, HintOf, Hinted, MayFollow;
  }

  /** A gateway write is one call; the calls of any other attempt are a burst of at most so many. */
  lemma {:induction false} CallsOfAnAttempt(
      isWrite: bool, direct: bool, attempt: nat, timeoutMs: Option<real>, tries: seq<CallTry>, start: real, r: Answer,
      now: real, abortAt: Option<real>)
    requires RunOk(isWrite, direct, attempt, timeoutMs, tries, start, r, now, abortAt) && attempt < 2
    ensures if direct then Burst(tries, timeoutMs, 3, OnOverloaded, start, r, now, abortAt)
            else if isWrite then |tries| == 1 && tries[0].answer == r
            else Burst(tries, timeoutMs, 3 - attempt, OnUnavailable, start, r, now, abortAt)
  {
    hide Burst;
  }

  // ----- What a failed attempt leads to --------------------------------------------------------

  predicate FailedWith(rec: AttemptRec, reason: Reason) {
    rec.lease.Some? && !rec.refused && rec.answer.Fail? && rec.answer.error.reason == reason
  }

  /** A second attempt is made exactly when the first had a lease and found its shard retiring. */
  lemma {:induction false} SecondAttemptIff(request: Request, c: FileCall, r: Answer, abortAt: Option<real>)
    requires Decided(request, c, r, abortAt)
    ensures 1 <= |c.attempts| <= 2
    ensures |c.attempts| == 2 <==> FailedWith(c.attempts[0], ShardRetiring)
  {
    hide RunOk;
  }

  /**
   In auto mode, and in no other, an attempt whose lease was refused for overload is followed
   by the gateway, if a second of the caller's time is left. Otherwise the last attempt's
   answer is the call's.
   */
  lemma {:induction false} GatewayFollowsIff(request: Request, c: FileCall, r: Answer, abortAt: Option<real>)
    requires Decided(request, c, r, abortAt)
    ensures var last := c.attempts[|c.attempts| - 1];
      var goes := && request.mode == AutoMode && FailedWith(last, RunnerOverloaded)
                  && (request.timeoutMs.Some? ==> c.start + request.timeoutMs.value - last.end >= 1_000.0);
      && (c.gateway != [] <==> goes)
      && (!goes ==> r == last.answer && c.end == last.end)
      && (goes ==>
           RunOk(request.isWrite, false, 0, RemainingAfter(request, c.start, c.attempts), c.gateway, last.end, r, c.end,
                 abortAt))
  {
    var last, left := c.attempts[|c.attempts| - 1], RemainingAfter(request, c.start, c.attempts);
    if NextOf(request, last, |c.attempts| - 1) == GoToGateway && EnoughFor(left) {
      RunBlames(request.isWrite, false, 0, left, c.gateway, last.end, r, c.end, abortAt);
    }
    hide RunOk;
  }

  /** A streamed read is begun again exactly when its first lease delivered nothing and found its shard retiring. */
  lemma {:induction false} SecondStreamIff(recs: seq<StreamRec>, delivered: seq<nat>, ended: Ended)
    requires StreamEnds(recs, delivered, ended)
    ensures 1 <= |recs| <= 2
    ensures |recs| == 2 <==>
      && !recs[0].refused && recs[0].lease.Some? && recs[0].delivered == []
      && recs[0].ended.Threw? && recs[0].ended.error.reason == ShardRetiring
  {
  }

  // ----- What an attempt leaves behind ------------------------------------------------------------

  /**
   An attempt with a lease acquires it, calls through it, and releases it: discarded exactly
   when the answer was UNAVAILABLE. One without calls the gateway, and a refused one nothing.
   */
  lemma {:induction false} TraceOfAnAttempt(rec: AttemptRec)
    requires rec.refused ==> rec.lease.None? && rec.tries == []
    ensures var calls := CallsVia(rec.lease, rec.tries);
      if rec.lease.None? then AttemptEvents(rec) == calls
      else
        var l, lost := rec.lease.value, rec.answer.Fail? && rec.answer.error.code == Unavailable;
        AttemptEvents(rec) ==
          [Acquired(l)] + calls + if lost then [Discarded(l), Released(l, true)] else [Released(l, false)]
  {
    CallsViaAre(rec.lease, rec.tries);
    hide CallEvents, CallsVia;
    assert [] + CallsVia(rec.lease, rec.tries) + [] == CallsVia(rec.lease, rec.tries);
  }

  /** The calls in order, through the lease or, without one, through the gateway. */
  function CallsVia(lease: Option<nat>, tries: seq<CallTry>): seq<Event> {
    if tries == [] then []
    else
      CallsVia(lease, tries[..|tries| - 1])
      + [Called(if lease.Some? then Direct(lease.value) else Gateway, tries[|tries| - 1].answer)]
  }

  lemma {:induction false} CallsViaAre(lease: Option<nat>, tries: seq<CallTry>)
    ensures CallEvents(ViaOf(lease), tries) == CallsVia(lease, tries)
  {
    if tries != [] {
      var init := tries[..|tries| - 1];
      CallsViaAre(lease, init);
      assert CallEvents(ViaOf(lease), tries) ==
             CallEvents(ViaOf(lease), init) + [Called(ViaOf(lease), tries[|tries| - 1].answer)];
    }
  }
}
