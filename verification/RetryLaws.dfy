/** What a burst of tries promises its caller (retry-transient-rpc.ts), in the kinds of errors and in milliseconds. */
module RetryLaws {
  import opened Wrappers
  import opened Reals
  import opened Worlds
  import opened RetryTransient

  /** The failures worth another try, unless the caller rules them out. */
  predicate Transient(kind: ErrorKind) {
    kind == Unavailable || kind == Timeout || kind == ResourceExhausted
  }

  /** The end of the retry window: the budget counts from the first failure, and the deadline cuts it short. */
  ghost function WindowEnd(c: Call, tries: seq<Try>): real
    requires tries != []
  {
    if c.deadline.Some? && c.deadline.value < tries[0].end + c.budgetMs then c.deadline.value
    else tries[0].end + c.budgetMs
  }

  /** Another try follows only a transient failure, and a transient failure is given up on only at the window's end. */
  lemma {:induction false} TransientFailuresAreRetried(
      c: Call, tries: seq<Try>, naps: seq<Nap>, now: real, r: Outcome)
    requires Ends(c, tries, naps, now, r)
    ensures forall i | 0 <= i < |tries| - 1 ::
      tries[i].reply.Err? && Transient(tries[i].reply.error.kind) && tries[i].reply.error.kind !in c.nonRetryable
    ensures r.Threw? && Transient(r.error.kind) && r.error.kind !in c.nonRetryable && c.budgetMs > 0.0 ==>
      now + 100.0 > WindowEnd(c, tries)
    ensures tries[|tries| - 1].reply.Ok? ==> r == Value(tries[|tries| - 1].reply.info)
    ensures r.Value? ==> tries[|tries| - 1].reply == Ok(r.info)
  {
    hide Alternate, NapsFit, RetriesFit, Paced;
  }

  /** The first try has 15 s, or the budget or the time to the deadline if that is less, and 1 ms if there is none. */
  lemma {:induction false} FirstTimeout(c: Call, tries: seq<Try>, naps: seq<Nap>, now: real, r: Outcome)
    requires Ends(c, tries, naps, now, r)
    ensures var least := Min(15_000.0, c.budgetMs);
      var left := if c.deadline.Some? then Min(least, c.deadline.value - c.start) else least;
      tries != [] && tries[0].start == c.start && tries[0].timeoutMs == if left <= 0.0 then 1.0 else left
  {
    hide Alternate, NapsFit, RetriesFit, Paced, OnlyRetryableRetried;
  }

  /** A retry has 15 s, or what is left of the window if that is less, and is not made with less than 100 ms. */
  lemma {:induction false} RetryTimeout(c: Call, tries: seq<Try>, naps: seq<Nap>, now: real, r: Outcome, i: nat)
    requires Ends(c, tries, naps, now, r) && 1 <= i < |tries|
    ensures tries[i].timeoutMs == Min(15_000.0, WindowEnd(c, tries) - tries[i].start) >= 100.0
  {
    hide Alternate, NapsFit, Paced, OnlyRetryableRetried;
  }

  /** What a server asks for, in milliseconds; only a transport error's positive delay counts. */
  ghost function AskedFor(e: Error): Option<real> {
    if e.kind in {NotFound, Unavailable, Timeout, ResourceExhausted, OtherTransport}
       && e.hintNanos.Some? && e.hintNanos.value > 0
    then Some(e.hintNanos.value as real / 1_000_000.0)
    else None
  }

  /**
   A pause is what the server asked for, up to 10 s and up to the window's end. Unasked, it
   is at least 200 ms and at most half as long again as the pause before it and 2 s, unless
   less than 200 ms of the window is left.
   */
  lemma {:induction false} PauseLength(
      c: Call, tries: seq<Try>, naps: seq<Nap>, now: real, r: Outcome, i: nat)
    requires Ends(c, tries, naps, now, r) && i < |naps|
    ensures i < |tries| && tries[i].reply.Err? && naps[i].start == tries[i].end
    ensures var left := WindowEnd(c, tries) - naps[i].start;
      var before := if i == 0 then 200.0 else naps[i - 1].durationMs;
      match AskedFor(tries[i].reply.error)
      case Some(hint) => naps[i].durationMs == Min(hint, Min(left, 10_000.0))
      case None =>
        if left < 200.0 then naps[i].durationMs == left
        else 200.0 <= naps[i].durationMs <= Min(left, Max(200.0, Min(2_000.0, before * 1.5)))
  {
    assert PauseAt(tries, naps, Limit(tries[0].end, c.budgetMs, c.deadline), i);
    hide Promised;
  }

  /** The next try starts when the pause is over. */
  lemma {:induction false} TriesFollowPauses(c: Call, tries: seq<Try>, naps: seq<Nap>, now: real, r: Outcome, i: nat)
    requires Ends(c, tries, naps, now, r) && 1 <= i < |tries|
    ensures |naps| <= |tries| <= |naps| + 1
    ensures tries[i].start == naps[i - 1].start + naps[i - 1].durationMs
  {
    hide Promised, PauseAt;
  }
}
