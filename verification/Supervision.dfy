/** The bounded supervision of a proof tool, `capture_observed` of `xtask/src/proof_tools.rs`, from the
  moment the child has been spawned.

  What the child, its output files and the clock show at each poll is an arbitrary stream; whether
  killing works and what reaping returns are arbitrary too.
  */
module Supervision {

  import opened Wrappers

  const DIAGNOSTIC_BYTES := 1024 * 1024

  /** The exit status of a child; zero is success. */
  type Status = int

  datatype Unseen = Unseen

  datatype Output = Output(stdout: nat, stderr: nat)

  /** What one poll sees: the child's state, the sizes of its output files, and the time since spawning. */
  datatype Poll = Poll(state: Result<Option<Status>, Unseen>, output: Result<Output, Unseen>, elapsed: nat)

  datatype Plan = Plan(limit: nat, stdoutLimit: nat)

  datatype Reason = Deadline | OutputBound | AbnormalExit | ProcessObservation | OutputObservation

  predicate Success(status: Status) {
    status == 0
  }

  predicate OutputBounds(output: Output, limit: nat) {
    output.stdout <= limit && output.stderr <= DIAGNOSTIC_BYTES
  }

  predicate InTime(elapsed: nat, limit: nat) {
    elapsed < limit
  }

  method CaptureReasons(poll: Poll, plan: Plan) returns (reasons: seq<Reason>)
    ensures reasons == Reasons(poll, plan)
  {
    reasons := [];
    if !InTime(poll.elapsed, plan.limit) {
      reasons := reasons + [Deadline];
    }
    match poll.state {
      case Ok(Some(status)) =>
        if !Success(status) {
          reasons := reasons + [AbnormalExit];
        }
      case Err(_) => reasons := reasons + [ProcessObservation];
      case Ok(None) =>
    }
    match poll.output {
      case Ok(output) =>
        if !OutputBounds(output, plan.stdoutLimit) {
          reasons := reasons + [OutputBound];
        }
      case Err(_) => reasons := reasons + [OutputObservation];
    }
  }

  /** Why a poll ends the supervision in failure. */
  function Reasons(poll: Poll, plan: Plan): seq<Reason> {
    (if InTime(poll.elapsed, plan.limit) then [] else [Deadline])
    + (match poll.state
       case Ok(Some(status)) => if Success(status) then [] else [AbnormalExit]
       case Ok(None) => []
       case Err(_) => [ProcessObservation])
    + (match poll.output
       case Ok(output) => if OutputBounds(output, plan.stdoutLimit) then [] else [OutputBound]
       case Err(_) => [OutputObservation])
  }

  /** Nothing is wrong at this poll. */
  predicate Healthy(poll: Poll, plan: Plan) {
    && InTime(poll.elapsed, plan.limit)
    && poll.state.Ok? && (poll.state.value.Some? ==> Success(poll.state.value.value))
    && poll.output.Ok? && OutputBounds(poll.output.value, plan.stdoutLimit)
  }

  lemma ReasonsOfIllness(poll: Poll, plan: Plan)
    ensures Reasons(poll, plan) == [] <==> Healthy(poll, plan)
    ensures Deadline in Reasons(poll, plan) <==> poll.elapsed >= plan.limit
    ensures AbnormalExit in Reasons(poll, plan) <==>
      poll.state.Ok? && poll.state.value.Some? && !Success(poll.state.value.value)
    ensures ProcessObservation in Reasons(poll, plan) <==> poll.state.Err?
    ensures OutputBound in Reasons(poll, plan) <==>
      poll.output.Ok? && !OutputBounds(poll.output.value, plan.stdoutLimit)
    ensures OutputObservation in Reasons(poll, plan) <==> poll.output.Err?
  {
  }

  datatype Action = TryWait | Kill | Wait | Sleep

  class Child {
    const polls: nat -> Poll
    const killable: bool
    const reaped: Result<Status, Unseen>
    var polled: nat
    ghost var log: seq<Action>

    constructor (polls: nat -> Poll, killable: bool, reaped: Result<Status, Unseen>)
      ensures this.polls == polls && this.killable == killable && this.reaped == reaped
      ensures polled == 0 && log == []
    {
      this.polls, this.killable, this.reaped, polled, log := polls, killable, reaped, 0, [];
    }

    /** `try_wait`, with what the output files and the clock show right after it. */
    method Observe() returns (poll: Poll)
      modifies this
      ensures poll == polls(old(polled)) && polled == old(polled) + 1 && log == old(log) + [TryWait]
    {
      poll := polls(polled);
      polled := polled + 1;
      log := log + [TryWait];
    }

    method KillIt() returns (ok: bool)
      modifies this`log
      ensures ok == killable && log == old(log) + [Kill]
    {
      log := log + [Kill];
      return killable;
    }

    method WaitFor() returns (status: Result<Status, Unseen>)
      modifies this`log
      ensures status == reaped && log == old(log) + [Wait]
    {
      log := log + [Wait];
      return reaped;
    }

    method SleepALittle()
      modifies this`log
      ensures log == old(log) + [Sleep]
    {
      log := log + [Sleep];
    }
  }

  datatype Observation = Observation(
    reasons: seq<Reason>, poll: Poll, kill: Option<bool>, wait: Result<Status, Unseen>)

  /** The child still runs and nothing is wrong. */
  predicate Running(poll: Poll, plan: Plan) {
    Healthy(poll, plan) && poll.state == Ok(None)
  }

  predicate Exited(poll: Poll) {
    poll.state.Ok? && poll.state.value.Some?
  }

  /** What is done while the child runs, `n` times over. */
  function Watching(n: nat): seq<Action> {
    if n == 0 then [] else Watching(n - 1) + [TryWait, Sleep]
  }

  /** What is done when a poll ends the supervision. */
  function Ending(poll: Poll): seq<Action> {
    if Exited(poll) then [TryWait, Wait] else [TryWait, Kill, Wait]
  }

  /** How the supervision ends at a poll, given what killing and reaping return. */
  function Settle(poll: Poll, plan: Plan, killable: bool, reaped: Result<Status, Unseen>)
    : Result<Observation, Observation>
  {
    var reasons := Reasons(poll, plan);
    if reasons != [] then Err(Observation(reasons, poll, if Exited(poll) then None else Some(killable), reaped))
    else if poll.state.Ok? && poll.state.value.Some? && reaped == Ok(poll.state.value.value) then
      Ok(Observation([], poll, None, reaped))
    else Err(Observation([ProcessObservation], poll, None, reaped))
  }

  ghost predicate Advancing(polls: nat -> Poll) {
    forall i: nat :: polls(i).elapsed < polls(i + 1).elapsed
  }

  /** `late` is any poll at which the child no longer runs well, say one past the time limit: without one
      the source's loop does not end. */
  method CaptureObserved(child: Child, plan: Plan, ghost late: nat)
    returns (r: Result<Observation, Observation>, last: nat)
    requires child.polled == 0 && child.log == []
    requires !Running(child.polls(late), plan)
    modifies child
    ensures last <= late && !Running(child.polls(last), plan)
    ensures forall i :: 0 <= i < last ==> Running(child.polls(i), plan)
    ensures child.log == Watching(last) + Ending(child.polls(last))
    ensures r == Settle(child.polls(last), plan, child.killable, child.reaped)
  {
    last := 0;
    while true
      invariant child.polled == last && child.log == Watching(last)
      invariant forall i :: 0 <= i < last ==> Running(child.polls(i), plan)
      invariant last <= late
      decreases late - last
    {
      var poll := child.Observe();
      var reasons := CaptureReasons(poll, plan);
      ReasonsOfIllness(poll, plan);
      if reasons != [] {
        var kill := None;
        if !(poll.state.Ok? && poll.state.value.Some?) {
          var killed := child.KillIt();
          kill := Some(killed);
        }
        var wait := child.WaitFor();
        assert child.log == Watching(last) + Ending(poll);
        return Err(Observation(reasons, poll, kill, wait)), last;
      }
      if poll.state.value.Some? {
        var wait := child.WaitFor();
        assert child.log == Watching(last) + Ending(poll);
        if wait == Ok(poll.state.value.value) {
          return Ok(Observation([], poll, None, wait)), last;
        }
        return Err(Observation([ProcessObservation], poll, None, wait)), last;
      }
      child.SleepALittle();
      assert child.log == Watching(last) + [TryWait, Sleep];
      last := last + 1;
    }
  }

  lemma {:induction false} AdvancingGrows(polls: nat -> Poll, i: nat)
    requires Advancing(polls)
    ensures polls(i).elapsed >= i
  {
    if i > 0 {
      AdvancingGrows(polls, i - 1);
    }
  }

  /** A clock that is past the limit at some poll ends the loop, and a strictly advancing clock is, after at
      most as many polls as the limit has milliseconds. */
  lemma LateIsNotRunning(polls: nat -> Poll, plan: Plan, late: nat)
    requires polls(late).elapsed >= plan.limit || (Advancing(polls) && late == plan.limit)
    ensures !Running(polls(late), plan)
  {
    if Advancing(polls) {
      AdvancingGrows(polls, late);
    }
  }

  /** How often an action occurs. */
  function Count(log: seq<Action>, action: Action): nat {
    multiset(log)[action]
  }

  /** In every run the child is waited for once, at the end, and killed at most once, namely just when
      the last poll did not see it exit. */
  lemma ChildIsReaped(n: nat, poll: Poll)
    ensures var log := Watching(n) + Ending(poll);
      && Count(log, Wait) == 1 && log[|log| - 1] == Wait
      && Count(log, Kill) == (if Exited(poll) then 0 else 1)
  {
  }

  /** Success means a successful exit, seen in time with its output in bounds, and confirmed by reaping. */
  lemma OkMeansSuccess(poll: Poll, plan: Plan, killable: bool, reaped: Result<Status, Unseen>)
    ensures Settle(poll, plan, killable, reaped).Ok? <==>
      && Exited(poll) && Success(poll.state.value.value) && reaped == Ok(poll.state.value.value)
      && poll.elapsed < plan.limit
      && poll.output.Ok? && OutputBounds(poll.output.value, plan.stdoutLimit)
  {
    ReasonsOfIllness(poll, plan);
  }
}
