/** The first query of a notarization, `NotaryCheck::query` of `xtask/src/release.rs`: a bounded loop
  against an arbitrary service and a clock that never runs slower than the waits it is asked for.
  */
module NotaryPoll {

  import opened Wrappers

  const ATTEMPTS := 5
  const LIMIT := 120
  const PAUSE := 30

  datatype Outcome = Accepted(token: int) | Pending

  datatype Failed = Failed

  /** A pause, and what the clock showed before it. */
  datatype Pause = Pause(elapsed: nat, seconds: nat)

  /** As long as the limit leaves, up to half a minute. */
  predicate Measured(pause: Pause) {
    pause.elapsed < LIMIT && pause.seconds == if LIMIT - pause.elapsed < PAUSE then LIMIT - pause.elapsed else PAUSE
  }

  class Session {
    const answers: nat -> Result<Outcome, Failed>
    const drift: nat -> nat
    var asked: nat
    var readings: nat
    var now: nat
    ghost var start: nat
    ghost var waited: nat
    ghost var lastStart: nat
    ghost var pauses: seq<Pause>

    constructor (answers: nat -> Result<Outcome, Failed>, drift: nat -> nat, now: nat)
      ensures this.answers == answers && asked == 0 && waited == 0 && pauses == []
      ensures start == this.now == now
    {
      this.answers, this.drift, asked, readings, this.now := answers, drift, 0, 0, now;
      start, waited, lastStart, pauses := now, 0, now, [];
    }

    /** Reads the clock; any time may have passed since the last step. */
    method Elapsed() returns (elapsed: nat)
      modifies this`readings, this`now
      ensures now >= old(now) && elapsed == now
    {
      now := now + drift(readings);
      readings := readings + 1;
      return now;
    }

    method Wait(seconds: nat)
      modifies this`now, this`waited, this`pauses
      ensures now == old(now) + seconds && waited == old(waited) + seconds
      ensures pauses == old(pauses) + [Pause(old(now), seconds)]
    {
      pauses := pauses + [Pause(now, seconds)];
      now, waited := now + seconds, waited + seconds;
    }

    method Query() returns (r: Result<Outcome, Failed>)
      modifies this`asked, this`lastStart
      ensures r == answers(old(asked)) && asked == old(asked) + 1 && lastStart == now
    {
      r := answers(asked);
      asked := asked + 1;
      lastStart := now;
    }

    /** Asks at least once and at most five times, and asks again only while the answer is pending and the
        limit is not reached. Between two queries it pauses half a minute, or what the limit leaves, so the
        pauses together never exceed the limit. */
    method Initial() returns (r: Result<Outcome, Failed>)
      requires asked == 0 && waited == 0 && pauses == [] && start == now
      modifies this
      ensures 1 <= asked <= ATTEMPTS
      ensures forall i :: 0 <= i < asked - 1 ==> answers(i) == Ok(Pending)
      ensures r == answers(asked - 1)
      ensures asked > 1 ==> lastStart < LIMIT
      ensures start + waited <= LIMIT || waited == 0
      ensures asked - 1 <= |pauses| <= asked && forall i :: 0 <= i < |pauses| ==> Measured(pauses[i])
      ensures r == Ok(Pending) && asked < ATTEMPTS ==> now >= LIMIT
    {
      var attempt := 0;
      while attempt < ATTEMPTS
        invariant attempt == asked <= ATTEMPTS
        invariant forall i :: 0 <= i < asked ==> answers(i) == Ok(Pending)
        invariant attempt > 0 ==> attempt < ATTEMPTS
        invariant start + waited <= now && (start + waited <= LIMIT || waited == 0)
        invariant asked > 1 ==> lastStart < LIMIT
        invariant |pauses| == asked && forall i :: 0 <= i < |pauses| ==> Measured(pauses[i])
        decreases ATTEMPTS - attempt
      {
        if attempt > 0 {
          var elapsed := Elapsed();
          if elapsed >= LIMIT {
            return Ok(Pending);
          }
        }
        var answer := Query();
        if answer.Err? || answer.value.Accepted? {
          return answer;
        }
        var elapsed := Elapsed();
        if attempt == ATTEMPTS - 1 || elapsed >= LIMIT {
          return Ok(Pending);
        }
        Wait(if PAUSE < LIMIT - elapsed then PAUSE else LIMIT - elapsed);
        attempt := attempt + 1;
      }
      return Ok(Pending);
    }
  }
}
