/** The polling schedule of the release queue: `NotaryState::with_deadline` of `release_queue.rs`, and
  `DiscoveryCadence` and `discover` of `release_orchestration.rs`. Times are seconds since the epoch.
  */
module Discovery {

  import opened Limits
  import opened Wrappers
  import Timestamp

  const DEADLINE := 7 * 24 * 60 * 60

  datatype NotaryState = InProgress | Accepted | Rejected | Expired

  datatype Failure = Future | Overflow | Invalid

  function WithDeadline(state: NotaryState, origin: nat, now: nat): Result<NotaryState, Failure> {
    if now < origin then Err(Future)
    else if origin + DEADLINE > Timestamp.U64_MAX then Err(Overflow)
    else if now >= origin + DEADLINE then Ok(Expired)
    else Ok(state)
  }

  // ---------------------------------------------------------------- the three schedules

  const FAST_SCHEDULE := "7,12,22,27,37,42,52,57 * * * *"
  const MEDIUM_SCHEDULE := "17,32,47 * * * *"
  const HOURLY_SCHEDULE := "2 * * * *"

  datatype Cadence = Immediate | Fast | Medium | Hourly

  function ParseCadence(event: string, schedule: string): Result<Cadence, Failure> {
    if event == "schedule" then
      if schedule == FAST_SCHEDULE then Ok(Fast)
      else if schedule == MEDIUM_SCHEDULE then Ok(Medium)
      else if schedule == HOURLY_SCHEDULE then Ok(Hourly)
      else Err(Invalid)
    else if schedule == "" then Ok(Immediate)
    else Err(Invalid)
  }

  /** The schedule that stands for a cadence. */
  function ScheduleOf(cadence: Cadence): string {
    match cadence
    case Fast => FAST_SCHEDULE
    case Medium => MEDIUM_SCHEDULE
    case Hourly => HOURLY_SCHEDULE
    case Immediate => ""
  }

  predicate Includes(cadence: Cadence, age: nat) {
    match cadence
    case Immediate => true
    case Hourly => true
    case Fast => age < 3600
    case Medium => age < 21600
  }

  /** The minutes of the hour that a schedule names. */
  function Minutes(cadence: Cadence): set<nat> {
    match cadence
    case Fast => {7, 12, 22, 27, 37, 42, 52, 57}
    case Medium => {17, 32, 47}
    case Hourly => {2}
    case Immediate => {}
  }

  predicate Fires(cadence: Cadence, now: nat) {
    now % 60 == 0 && now / 60 % 60 in Minutes(cadence)
  }

  /** Some schedule fires at `now` and takes an unfinished run created at `created`. */
  ghost predicate Visited(created: nat, now: nat) {
    && created <= now < created + DEADLINE
    && exists c :: Fires(c, now) && Includes(c, now - created)
  }

  lemma Mod300(x: nat, q: nat, r: nat)
    requires x == 300 * q + r && r < 300
    ensures x % 300 == r
  {
  }

  lemma Mod900(x: nat, q: nat, r: nat)
    requires x == 900 * q + r && r < 900
    ensures x % 900 == r
  {
  }

  lemma Mod3600(x: nat, q: nat, r: nat)
    requires x == 3600 * q + r && r < 3600
    ensures x % 3600 == r
  {
  }

  /** The grids in terms of the minute of the hour. */
  lemma GridArithmetic(now: nat)
    ensures var minute := now / 60 % 60;
      && (now % 60 == 0 && minute % 5 == 2 <==> now % 300 == 120)
      && (now % 900 == 120 <==> now % 300 == 120 && minute % 15 == 2)
      && (now % 3600 == 120 <==> now % 300 == 120 && minute == 2)
  {
    var minutes, second := now / 60, now % 60;
    var hour, minute := minutes / 60, minutes % 60;
    Mod300(now, 12 * hour + minute / 5, 60 * (minute % 5) + second);
    Mod900(now, 4 * hour + minute / 15, 60 * (minute % 15) + second);
    Mod3600(now, hour, 60 * minute + second);
  }

  /** The schedules share out the five-minute grid: one of them fires at each point of it, and only there. */
  lemma GridIsPartitioned(now: nat)
    ensures (exists c :: Fires(c, now)) <==> now % 300 == 120
    ensures forall c, d :: Fires(c, now) && Fires(d, now) ==> c == d
  {
    var minute := now / 60 % 60;
    GridArithmetic(now);
    if now % 300 == 120 {
      if minute in Minutes(Fast) {
        assert Fires(Fast, now);
      } else if minute in Minutes(Medium) {
        assert Fires(Medium, now);
      } else {
        assert Fires(Hourly, now);
      }
    }
  }

  /** How often a live run of a given age is visited: the period of the grid for its age. */
  function Period(age: nat): nat {
    if age < 3600 then 300 else if age < 21600 then 900 else 3600
  }

  /** A live run is visited exactly at the points of the grid of its age. */
  lemma VisitedOnGrid(created: nat, now: nat)
    requires created <= now < created + DEADLINE
    ensures Visited(created, now) <==> now % Period(now - created) == 120
  {
    var age, minute := now - created, now / 60 % 60;
    GridIsPartitioned(now);
    GridArithmetic(now);
    if now % 300 == 120 {
      var c :| Fires(c, now);
      assert Visited(created, now) <==> Includes(c, age);
    }
  }

  lemma NextOnGrid(from: nat, period: nat) returns (now: nat, k: nat)
    requires period == 300 || period == 900 || period == 3600
    ensures from <= now < from + period && now == k * period + 120 && now % period == 120
  {
    k := if period == 300 then from / 300 else if period == 900 then from / 900 else from / 3600;
    if k * period + 120 < from {
      k := k + 1;
    }
    now := k * period + 120;
    if period == 300 {
      Mod300(now, k, 120);
    } else if period == 900 {
      Mod900(now, k, 120);
    } else {
      Mod3600(now, k, 120);
    }
  }

  /** With timely firing no window of the period of its age passes without a visit to a live run. */
  lemma VisitedInTime(created: nat, from: nat, period: nat) returns (now: nat)
    requires period == 300 || period == 900 || period == 3600
    requires created <= from && Period(from + period - 1 - created) <= period
    requires from + period <= created + DEADLINE
    ensures from <= now < from + period && Visited(created, now)
  {
    var k;
    now, k := NextOnGrid(from, period);
    if period == 900 {
      Mod300(now, 3 * k, 120);
    } else if period == 3600 {
      Mod300(now, 12 * k, 120);
      Mod900(now, 4 * k, 120);
    }
    VisitedOnGrid(created, now);
  }

  // ---------------------------------------------------------------- discovery

  /** What is asked about one original run. A live artifact is required of an active run only. */
  datatype Run = Run(
    id: nat,
    attempt: nat,
    eligible: bool,
    created: Result<nat, Failure>,
    live: Result<Option<nat>, Failure>,
    any: Result<Option<nat>, Failure>,
    completed: Result<bool, Failure>)

  datatype Entry = Entry(id: nat, attempt: nat, artifact: nat)

  datatype Plan = Plan(pending: seq<Entry>, expired: seq<nat>)

  predicate Active(run: Run, now: nat)
    requires run.created.Ok?
  {
    WithDeadline(InProgress, run.created.value, now) == Ok(InProgress)
  }

  function Artifact(run: Run, now: nat): Result<Option<nat>, Failure>
    requires run.created.Ok?
  {
    if Active(run, now) then run.live else run.any
  }

  /** The run has an artifact nobody has finished with. */
  predicate Waiting(run: Run, now: nat) {
    && run.eligible
    && run.created.Ok? && WithDeadline(InProgress, run.created.value, now).Ok?
    && Artifact(run, now).Ok? && Artifact(run, now).value.Some?
    && run.completed == Ok(false)
  }

  predicate Included(run: Run, cadence: Cadence, now: nat) {
    Waiting(run, now) && Active(run, now) && Includes(cadence, now - run.created.value)
  }

  predicate Late(run: Run, now: nat) {
    Waiting(run, now) && !Active(run, now)
  }

  /** No question about the run fails. `explicit` is a dispatch that names the run. */
  predicate Answered(run: Run, explicit: bool, now: nat) {
    if !run.eligible then !explicit else
    && run.created.Ok? && WithDeadline(InProgress, run.created.value, now).Ok?
    && Artifact(run, now).Ok?
    && (if Artifact(run, now).value.None? then !explicit else
        run.completed.Ok? && (run.completed == Ok(true) || Active(run, now) || !explicit))
  }

  function EntryOf(run: Run): Entry
    requires run.live.Ok? && run.live.value.Some?
  {
    Entry(run.id, run.attempt, run.live.value.value)
  }

  function IncludedEntries(runs: seq<Run>, cadence: Cadence, now: nat): seq<Entry> {
    if runs == [] then [] else
    var front, run := IncludedEntries(runs[..|runs| - 1], cadence, now), runs[|runs| - 1];
    if Included(run, cadence, now) then front + [EntryOf(run)] else front
  }

  function LateIds(runs: seq<Run>, now: nat): seq<nat> {
    if runs == [] then [] else
    var front, run := LateIds(runs[..|runs| - 1], now), runs[|runs| - 1];
    if Late(run, now) then front + [run.id] else front
  }

  /** The loop over the runs. */
  method ScanRuns(runs: seq<Run>, cadence: Cadence, explicit: bool, now: nat) returns (r: Result<Plan, Failure>)
    ensures r.Ok? <==> forall i :: 0 <= i < |runs| ==> Answered(runs[i], explicit, now)
    ensures r.Ok? ==> r.value == Plan(IncludedEntries(runs, cadence, now), LateIds(runs, now))
  {
    var pending, expired := [], [];
    for i := 0 to |runs|
      invariant forall k :: 0 <= k < i ==> Answered(runs[k], explicit, now)
      invariant pending == IncludedEntries(runs[..i], cadence, now)
      invariant expired == LateIds(runs[..i], now)
    {
      var run := runs[i];
      assert runs[..i + 1][..i] == runs[..i];
      if !run.eligible {
        if explicit {
          return Err(Invalid);
        }
        continue;
      }
      if run.created.Err? {
        return Err(run.created.error);
      }
      var state := WithDeadline(InProgress, run.created.value, now);
      if state.Err? {
        return Err(state.error);
      }
      var active := state.value != Expired;
      var artifact := if active then run.live else run.any;
      if artifact.Err? {
        return Err(artifact.error);
      }
      if artifact.value.None? {
        if explicit {
          return Err(Invalid);
        }
        continue;
      }
      if run.completed.Err? {
        return Err(run.completed.error);
      }
      if run.completed.value {
        continue;
      }
      if !active {
        if explicit {
          return Err(Invalid);
        }
        expired := expired + [run.id];
        continue;
      }
      if !Includes(cadence, now - run.created.value) {
        continue;
      }
      pending := pending + [Entry(run.id, run.attempt, artifact.value.value)];
    }
    assert runs[..|runs|] == runs;
    return Ok(Plan(pending, expired));
  }

  /** What starts a discovery: the event, the run that a dispatch names, the run that triggered it, and the
      schedule that fired. */
  datatype Input = Input(event: string, requested: string, trigger: string, schedule: string)

  function Positive(value: string): Result<nat, Failure> {
    if value == "" || value[0] == '0' then Err(Invalid) else
    match Timestamp.Digits(value, 0, |value|)
    case None => Err(Invalid)
    case Some(n) => if n > Timestamp.U64_MAX then Err(Invalid) else Ok(n)
  }

  /** The one run to look at, if the event names one. */
  function Named(input: Input): Result<Option<nat>, Failure> {
    var name :=
      if input.event == "workflow_dispatch" && input.requested != "" then Some(input.requested)
      else if input.event == "workflow_run" && input.requested == "" then Some(input.trigger)
      else None;
    if name.Some? then
      match Positive(name.value)
      case Err(e) => Err(e)
      case Ok(id) => Ok(Some(id))
    else if (input.event == "workflow_dispatch" || input.event == "schedule")
      && input.requested == "" && input.trigger == "" then Ok(None)
    else Err(Invalid)
  }

  /** The original runs to look at: the named one, or a bounded list. */
  function Runs(named: Option<nat>, one: nat -> Result<Run, Failure>, listed: Result<seq<Run>, Failure>)
    : Result<seq<Run>, Failure>
  {
    match named
    case Some(id) => if one(id).Err? then Err(one(id).error) else Ok([one(id).value])
    case None => if listed.Ok? && |listed.value| > SCAN_LIMIT then Err(Invalid) else listed
  }

  /** What a discovery finds, if no question on its way fails. */
  function Discovered(input: Input, one: nat -> Result<Run, Failure>, listed: Result<seq<Run>, Failure>, now: nat)
    : Option<Plan>
  {
    var cadence, named := ParseCadence(input.event, input.schedule), Named(input);
    if cadence.Err? || named.Err? then None else
    var runs := Runs(named.value, one, listed);
    if runs.Ok? && forall i :: 0 <= i < |runs.value| ==> Answered(runs.value[i], Dispatched(input), now)
    then Some(Plan(IncludedEntries(runs.value, cadence.value, now), LateIds(runs.value, now))) else None
  }

  method Discover(input: Input, one: nat -> Result<Run, Failure>, listed: Result<seq<Run>, Failure>, now: nat)
    returns (r: Result<Plan, Failure>)
    ensures Discovered(input, one, listed, now) == if r.Ok? then Some(r.value) else None
  {
    var cadence := ParseCadence(input.event, input.schedule);
    if cadence.Err? {
      return Err(cadence.error);
    }
    var named := Named(input);
    if named.Err? {
      return Err(named.error);
    }
    var runs := Runs(named.value, one, listed);
    if runs.Err? {
      return Err(runs.error);
    }
    r := ScanRuns(runs.value, cadence.value, Dispatched(input), now);
  }

  /** A dispatch that names its run insists on it. */
  predicate Dispatched(input: Input) {
    input.event == "workflow_dispatch" && input.requested != ""
  }

  /** The plan holds exactly the included runs and exactly the late ones. */
  lemma {:induction false} PlanMembers(runs: seq<Run>, cadence: Cadence, now: nat)
    ensures forall e :: e in IncludedEntries(runs, cadence, now) <==>
      exists i :: 0 <= i < |runs| && Included(runs[i], cadence, now) && EntryOf(runs[i]) == e
    ensures forall id :: id in LateIds(runs, now) <==>
      exists i :: 0 <= i < |runs| && Late(runs[i], now) && runs[i].id == id
  {
    if runs != [] {
      var front := runs[..|runs| - 1];
      PlanMembers(front, cadence, now);
      assert forall i :: 0 <= i < |front| ==> front[i] == runs[i];
    }
  }

  /** No run is both taken up and given up. */
  lemma NeverBoth(runs: seq<Run>, cadence: Cadence, now: nat, e: Entry)
    requires forall i, j :: 0 <= i < j < |runs| ==> runs[i].id != runs[j].id
    requires e in IncludedEntries(runs, cadence, now)
    ensures e.id !in LateIds(runs, now)
  {
    PlanMembers(runs, cadence, now);
    var i :| 0 <= i < |runs| && Included(runs[i], cadence, now) && EntryOf(runs[i]) == e;
  }

  /** A waiting run whose age is known is taken up by a schedule exactly when that schedule visits it. */
  lemma IncludedIsVisited(run: Run, cadence: Cadence, now: nat)
    requires Waiting(run, now) && Fires(cadence, now)
    ensures Included(run, cadence, now) <==> Visited(run.created.value, now)
  {
    GridIsPartitioned(now);
  }

  /** At this time the list holds a waiting run with this identity, created then. */
  ghost predicate HoldsWaiting(runs: seq<Run>, id: nat, created: nat, now: nat) {
    exists i :: 0 <= i < |runs| && IsWaiting(runs[i], id, created, now)
  }

  predicate IsWaiting(run: Run, id: nat, created: nat, now: nat) {
    run.id == id && run.created == Ok(created) && Waiting(run, now)
  }

  /** A scheduled discovery at this time finds the list within its bound, with every run answered, and in it the
      run with this identity waiting. */
  ghost predicate Discoverable(runs: seq<Run>, id: nat, created: nat, now: nat) {
    && |runs| <= SCAN_LIMIT
    && (forall i :: 0 <= i < |runs| ==> Answered(runs[i], false, now))
    && HoldsWaiting(runs, id, created, now)
  }

  /** What a schedule starts. */
  function Scheduled(cadence: Cadence): Input {
    Input("schedule", "", "", ScheduleOf(cadence))
  }

  /** A live run that keeps waiting is taken up by the discovery of some schedule within the period of its age. */
  lemma WaitingRunIsPlanned(observed: nat -> seq<Run>, one: nat -> Result<Run, Failure>,
    id: nat, created: nat, from: nat, period: nat)
    returns (now: nat, cadence: Cadence, plan: Plan, e: Entry)
    requires period == 300 || period == 900 || period == 3600
    requires created <= from && Period(from + period - 1 - created) <= period
    requires from + period <= created + DEADLINE
    requires forall t: nat :: from <= t < from + period ==> Discoverable(observed(t), id, created, t)
    ensures from <= now < from + period && Fires(cadence, now)
    ensures Discovered(Scheduled(cadence), one, Ok(observed(now)), now) == Some(plan)
    ensures e.id == id && e in plan.pending
  {
    now := VisitedInTime(created, from, period);
    cadence :| Fires(cadence, now) && Includes(cadence, now - created);
    var runs := observed(now);
    assert Discoverable(runs, id, created, now);
    var i :| 0 <= i < |runs| && IsWaiting(runs[i], id, created, now);
    IncludedIsVisited(runs[i], cadence, now);
    e := EntryOf(runs[i]);
    PlanMembers(runs, cadence, now);
    assert ParseCadence("schedule", ScheduleOf(cadence)) == Ok(cadence);
    plan := Plan(IncludedEntries(runs, cadence, now), LateIds(runs, now));
  }
}
