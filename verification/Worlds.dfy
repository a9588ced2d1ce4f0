/**
 The environment of the polling and retry loops: a clock, a server, a random source
 and an abort signal. All four are scripts fixed in advance and otherwise arbitrary,
 so what is proved of a loop holds whatever the server answers and however long it
 takes. Time is in milliseconds. It moves only in `Sleep`, by the requested time, and
 in `Attempt`, by at most the timeout the attempt was given.
 */
module Worlds {
  import opened Wrappers

  datatype Status =
    | Pending | Creating | Running | Paused | Terminating
    | Completed | Failed | Terminated | Unspecified

  datatype ErrorKind =
    | NotFound | Unavailable | Timeout | ResourceExhausted | OtherTransport
    | OtherSdkError | OtherError | NotAnError

  /**
   A thrown value. `hintNanos` is a transport error's `retryDelayMs`, which is decoded
   from a protobuf duration and so is a whole number of nanoseconds; `id` tells two
   errors of one kind apart.
   */
  datatype Error = Error(kind: ErrorKind, hintNanos: Option<nat>, id: nat)

  datatype Info = Info(status: Option<Status>, exitCode: Option<int>)

  datatype Reply = Ok(info: Info) | Err(error: Error)

  datatype Try = Try(start: real, timeoutMs: real, end: real, reply: Reply)

  datatype Nap = Nap(start: real, durationMs: real)

  class World {
    const replies: nat -> Reply
    const delays: nat -> real
    const randoms: nat -> real
    const abortAt: Option<real>
    var now: real
    var attempts: nat
    var draws: nat
    ghost var tries: seq<Try>
    ghost var naps: seq<Nap>

    constructor (replies: nat -> Reply, delays: nat -> real, randoms: nat -> real,
                 abortAt: Option<real>, now: real)
      ensures this.now == now && tries == [] && naps == [] && Recorded()
    {
      this.replies, this.delays, this.randoms, this.abortAt := replies, delays, randoms, abortAt;
      this.now, attempts, draws, tries, naps := now, 0, 0, [], [];
    }

    predicate Aborted()
      reads this
    {
      abortAt.Some? && abortAt.value <= now
    }

    /** The tries are the calls made so far, and each got the reply scripted for it. */
    ghost predicate Recorded()
      reads `attempts, `tries
    {
      |tries| == attempts && forall i | 0 <= i < |tries| :: tries[i].reply == replies(i)
    }

    /** One call to the server. */
    method Attempt(timeoutMs: real) returns (reply: Reply)
      requires timeoutMs > 0.0 && Recorded()
      modifies `now, `attempts, `tries
      ensures Recorded() && reply == replies(old(attempts))
      ensures old(now) <= now <= old(now) + timeoutMs
      ensures tries == old(tries) + [Try(old(now), timeoutMs, now, reply)]
    {
      var start := now;
      var took := delays(attempts);
      reply := replies(attempts);
      now := now + if took < 0.0 then 0.0 else if took > timeoutMs then timeoutMs else took;
      attempts := attempts + 1;
      tries := tries + [Try(start, timeoutMs, now, reply)];
    }

    /** Sleeps for the whole time, or until the signal fires. */
    method Sleep(durationMs: real) returns (aborted: bool)
      requires durationMs >= 0.0
      modifies `now, `naps
      ensures old(now) <= now <= old(now) + durationMs
      ensures !aborted ==> now == old(now) + durationMs
      ensures naps == old(naps) + [Nap(old(now), durationMs)]
      ensures aborted ==> Aborted()
    {
      naps := naps + [Nap(now, durationMs)];
      if Aborted() {
        return true;
      }
      if abortAt.Some? && abortAt.value <= now + durationMs {
        now := abortAt.value;
        return true;
      }
      now := now + durationMs;
      return false;
    }

    /** `Math.random()`. */
    method Random() returns (r: real)
      modifies `draws
      ensures 0.0 <= r < 1.0
    {
      var drawn := randoms(draws);
      draws := draws + 1;
      r := if 0.0 <= drawn < 1.0 then drawn else 0.0;
    }
  }
}
